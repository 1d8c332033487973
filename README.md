# Lipid–gene Sankey pipeline, modelled in Dafny

This project models the data pipeline of `lipid_gene_sankey_app.py`. The application compares
white and beige adipocytes. It reads a transcriptome table and a lipid table and cleans both.
For each row it computes a log2 fold change of the White mean over the Beige mean. It keeps the
rows that change by more than a threshold and tags each one `Upregulated_White` or
`Downregulated_White`. It picks the top genes of each direction and emits flows:

- lipid class → direction, with weight 1;
- direction → gene, with weight |log2FC|.

It groups the flows by (source, target) and numbers the node labels. Each node is coloured by a
fixed rule table. The result is the data for a Sankey diagram plus eight summary counts.

The model has six modules, one file each:

| module | file | stage |
|---|---|---|
| `Common` | `common.dfy` | `Option`/`Result`, `Abs`, `Min`, `NoDup`, an order-preserving `Filter` and its lemmas |
| `Loader` | `loader.dfy` | cleaning rows by identifier; choosing sample columns by name prefix |
| `FoldChange` | `fold_change.dfy` | numeric coercion; NaN-skipping means; the log2 fold change; the lipid class |
| `Selector` | `selector.dfy` | the magnitude filter; direction tags; `nlargest`/`nsmallest`; the top-gene split; the summary |
| `FlowGraph` | `flow_graph.dfy` | flow emission; the sorted group-by sum; node labels and index; indexed edges; node colours |
| `Pipeline` | `pipeline.dfy` | one whole run from the two tables to a well-formed diagram, and a worked example |

Modelling choices:

- A table is a list of column names plus rows. A row maps column names to cells.
- A cell is `Missing` (pandas' NaN), `Text` or `Num`.
- The pandas row masks become order-preserving filters.
- `str.startswith` becomes the sequence-prefix test.
- `groupby(...).sum()` becomes insertion into a list kept strictly sorted by the (source, target) key. The order is lexicographic by code point, as Python compares strings.
- `unique()` becomes a deduplication that keeps first appearances.
- The dictionary comprehension becomes a map built so that a later position overwrites an earlier one.
- The colour `if`/`elif` chain is proved equal to a first-match rule table.
- Four loops that rebuild data become methods with loop invariants:
  - the in-place numeric coercion of the sample columns;
  - the two flow-appending loops;
  - the `.map` of the edge labels to node indices (`FlowGraph.IndexEdges`);
  - the node-colour loop.
- The ranking by `nlargest`/`nsmallest` (with pandas' default `keep='first'`) uses a strict order on row positions. A larger key comes first; on equal keys the earlier row comes first.
- Numeric parsing (`pd.to_numeric(errors='coerce')`) is the parameter `parse: string -> Option<real>`.
- The logarithm is the parameter `log2: real -> real`. Facts about the sign of the fold change assume only `Log2Like`: strictly increasing, with log2(1) = 0 and log2(1/2) = -1.

## Model

| member | source | states |
|---|---|---|
| Loader.CleanGenes | lipid_gene_sankey_app.py:39-40 | a missing gene identifier column is reported, and only then; cleaning succeeds exactly when the column exists and every surviving identifier is text; every surviving identifier differs from `Class` |
| Loader.CleanLipids | lipid_gene_sankey_app.py:43-45 | a missing lipid identifier column is reported, and only then; cleaning succeeds exactly when the column exists and every surviving identifier is text; no surviving identifier is `Label` or `Metabolite` |
| Loader.Clean | lipid_gene_sankey_app.py:39-45 | succeeds exactly when the identifier column exists and every surviving identifier is text; then the records are exactly the kept rows, in order, each identifier read as text and none an artefact |
| Loader.CleanRowsExact | lipid_gene_sankey_app.py:39-45 | a row survives cleaning if and only if it is an input row whose identifier is present (not missing) and not an artefact |
| Loader.CleanRowsAppend | lipid_gene_sankey_app.py:39-45 | the masks act row by row: cleaning a concatenation concatenates the cleaned parts |
| Loader.DropArtefactsAppend | lipid_gene_sankey_app.py:39-44 | the artefact masks distribute over concatenation |
| Loader.ToRecords | lipid_gene_sankey_app.py:39-45 | one record per kept row, carrying the row and its text identifier |
| Loader.ColumnsWithPrefix | lipid_gene_sankey_app.py:48-51 | a column is selected if and only if it is a table column starting with the prefix |
| Loader.ColumnsWithPrefixAppend | lipid_gene_sankey_app.py:48-51 | selection keeps table order: it distributes over concatenation of column lists |
| FoldChange.Coerce | lipid_gene_sankey_app.py:69 | a text cell becomes its parsed number, or missing when it does not parse; a number or a missing cell is unchanged; the result is never text (likewise at line 77) |
| FoldChange.CoerceIdempotent | lipid_gene_sankey_app.py:68-69 | coercing twice equals coercing once, so a column listed under both prefixes is harmless |
| FoldChange.CoerceAll | lipid_gene_sankey_app.py:68-69 | after coercing a list of columns, a cell of a listed column is its coerced original and every other cell and every identifier is the original |
| FoldChange.CoerceColumn | lipid_gene_sankey_app.py:69 | one column is coerced in every row; identifiers and all other columns are unchanged |
| FoldChange.CoerceColumns | lipid_gene_sankey_app.py:68-69 | the loop over the columns returns the records `CoerceAll` describes (the lipid loop at lines 76-77 is the same) |
| FoldChange.RowValues | lipid_gene_sankey_app.py:71-72 | the chosen columns of a row, in order, absent ones read as missing |
| FoldChange.PresentValues | lipid_gene_sankey_app.py:71-72 | never more numbers than cells; empty exactly when no cell is a number |
| FoldChange.PresentValuesExact | lipid_gene_sankey_app.py:71-72 | no number is left out: every number cell's value is kept, and every kept value comes from a number cell |
| FoldChange.Mean | lipid_gene_sankey_app.py:71-72 | the row mean is undefined exactly when none of its cells is a number |
| FoldChange.MeanSingle | lipid_gene_sankey_app.py:71-72 | the mean of one number is that number |
| FoldChange.MeanAppendEmpty | lipid_gene_sankey_app.py:71-72 | joining cells without numbers to a group leaves its mean unchanged |
| FoldChange.MeanAppend | lipid_gene_sankey_app.py:71-72 | the mean of two groups that both have numbers is their means' average weighted by how many numbers each has; with `MeanSingle` this makes the mean the arithmetic mean of the present values |
| FoldChange.PresentValuesAppend | lipid_gene_sankey_app.py:71-72 | the numbers of a concatenation are the numbers of each part, in order |
| FoldChange.MeanSkipsMissing | lipid_gene_sankey_app.py:71-72 | inserting a missing cell anywhere does not change the mean |
| FoldChange.MeanBounds | lipid_gene_sankey_app.py:71-72 | a defined mean lies between any bounds on the numbers it averages |
| FoldChange.Log2FC | lipid_gene_sankey_app.py:73 | undefined when a mean is undefined; with both means defined, defined exactly when Beige + 1 is not zero and (White + 1) / (Beige + 1) is positive, and then it is log2 of that ratio; so defined whenever both means exceed -1 |
| FoldChange.FoldChangeSign | lipid_gene_sankey_app.py:73 | for means above -1 and an increasing log2 with log2(1) = 0 (`Log2Like`), the fold change is positive, zero or negative exactly when the White mean is above, equal to or below the Beige mean |
| FoldChange.Score | lipid_gene_sankey_app.py:71-73 | keeps the identifier; a defined fold change implies two defined means; no number on one side gives no fold change |
| Pipeline.ExampleGeneScore | lipid_gene_sankey_app.py:71-73 | a gene with Beige samples 1, 3 and White samples 6, 6 has means 2 and 6 and fold change log2(7/3): the mean and the pseudocount of 1 |
| Pipeline.ExampleLipidScore | lipid_gene_sankey_app.py:71-73 | a lipid with Beige samples 1, 1 and White samples 0 and missing has means 1 and 0 (the missing sample is skipped) and fold change -1 |
| FoldChange.ScoreAll | lipid_gene_sankey_app.py:71-73 | one scored row per record, in order |
| FoldChange.LipidClass | lipid_gene_sankey_app.py:82 | the class is a prefix of the identifier without spaces, and a space follows it whenever it is shorter than the identifier |
| Selector.Significant | lipid_gene_sankey_app.py:85-86 | every hit has a fold change of magnitude strictly above the threshold; there are no more hits than rows |
| Selector.SignificantExact | lipid_gene_sankey_app.py:85-86 | a hit is produced if and only if some row has a defined fold change of magnitude above the threshold |
| Selector.SignificantAppend | lipid_gene_sankey_app.py:85-86 | the filter keeps row order: it distributes over concatenation |
| Selector.SignificantMonotone | lipid_gene_sankey_app.py:85-86 | raising the threshold refilters the earlier hits, so there are never more of them |
| Selector.Ups | lipid_gene_sankey_app.py:93 | a hit is up-tagged if and only if it is a hit with a strictly positive fold change |
| Selector.Downs | lipid_gene_sankey_app.py:94 | a hit is down-tagged if and only if it is a hit whose fold change is zero or negative |
| Selector.DirectionOf | lipid_gene_sankey_app.py:88-89 | the tag is up exactly for a strictly positive fold change, so zero is tagged down |
| Selector.DirectionsPartition | lipid_gene_sankey_app.py:88-89 | every hit gets exactly one of the two tags |
| Selector.Best | lipid_gene_sankey_app.py:93-94 | the chosen candidate ranks before every other candidate |
| Selector.Remove | lipid_gene_sankey_app.py:93-94 | removes exactly the given candidate and keeps the rest distinct |
| Selector.TopFrom | lipid_gene_sankey_app.py:93-94 | picks min(k, #candidates) distinct candidates, in rank order, each ranked before every candidate left out |
| Selector.TopIndices | lipid_gene_sankey_app.py:93-94 | the first min(k, n) row positions in rank order; every chosen row ranks before every row not chosen |
| Selector.LeftOutBehind | lipid_gene_sankey_app.py:93-94 | a row left out never has a larger key than a chosen row |
| Selector.NLargest | lipid_gene_sankey_app.py:93 | min(k, n) hits in non-increasing fold-change order; no hit left out has a larger fold change than a chosen one; the hits sit at distinct row positions, in rank order, and every position left out ranks behind every position taken, ties going to the earlier row |
| Selector.NSmallest | lipid_gene_sankey_app.py:94 | min(k, n) hits in non-decreasing fold-change order; no hit left out has a smaller fold change than a chosen one; the hits sit at distinct row positions, in rank order by negated fold change, and every position left out ranks behind every position taken, ties going to the earlier row |
| Selector.TopGenes | lipid_gene_sankey_app.py:92-95 | up to n // 2 up genes followed by up to n // 2 down genes, all significant, never more than n (n - 1 for odd n) |
| Selector.CountUp | lipid_gene_sankey_app.py:161-165 | at most one per hit, and zero exactly when no hit has a strictly positive fold change |
| Selector.CountDown | lipid_gene_sankey_app.py:162-166 | at most one per hit, and zero exactly when no hit has a strictly negative fold change |
| Selector.CountsPartition | lipid_gene_sankey_app.py:161-166 | the up count equals the number of up tags; the down count is at most the number of down tags, with equality when no fold change is zero |
| Selector.Summarize | lipid_gene_sankey_app.py:158-167 | the up and down counts of each dataset never exceed its significant count |
| Selector.SummaryCountsExact | lipid_gene_sankey_app.py:160-166 | with a non-negative threshold, the up and down counts add up to the significant count |
| FlowGraph.DirectionLabel | lipid_gene_sankey_app.py:88-89 | the label is `Upregulated_White` exactly for up and `Downregulated_White` exactly for down |
| FlowGraph.LipidFlow | lipid_gene_sankey_app.py:100 | a lipid's flow goes from its class (the identifier up to its first space, or all of it when it has none) to `Upregulated_White` exactly when its fold change is positive, otherwise to `Downregulated_White`, with weight 1 |
| FlowGraph.GeneFlow | lipid_gene_sankey_app.py:103 | a gene's flow goes from `Upregulated_White` exactly when its fold change is positive, otherwise from `Downregulated_White`, to the gene's identifier, weighing the magnitude of its fold change |
| FlowGraph.LipidFlows | lipid_gene_sankey_app.py:99-100 | one class-to-direction flow per significant lipid, in order |
| FlowGraph.GeneFlows | lipid_gene_sankey_app.py:102-103 | one direction-to-gene flow per top gene, in order |
| FlowGraph.BuildFlows | lipid_gene_sankey_app.py:98-103 | the two appending loops emit all lipid flows, then all gene flows |
| FlowGraph.StrLessTransitive | lipid_gene_sankey_app.py:106 | the string order used by the grouping is transitive |
| FlowGraph.StrLessTotal | lipid_gene_sankey_app.py:106 | any two different strings are ordered one way or the other |
| FlowGraph.KeyLessTotal | lipid_gene_sankey_app.py:106 | any two different (source, target) keys are ordered |
| FlowGraph.KeySet | lipid_gene_sankey_app.py:106 | a key is present exactly when some flow has it |
| FlowGraph.SortedValueIsSum | lipid_gene_sankey_app.py:106 | in a strictly sorted list, each entry's weight is the total weight of its key |
| FlowGraph.Insert | lipid_gene_sankey_app.py:106 | adding a flow keeps the keys strictly sorted and adds its weight to its key alone |
| FlowGraph.Aggregate | lipid_gene_sankey_app.py:105-106 | one entry per key, strictly sorted by key, with each key's summed weight; the total weight is preserved |
| FlowGraph.SumForPermutation | lipid_gene_sankey_app.py:106 | a key's summed weight does not depend on the flow order |
| FlowGraph.SortedUnique | lipid_gene_sankey_app.py:106 | a strictly sorted list is determined by its keys and their weights |
| FlowGraph.AggregateOrderIndependent | lipid_gene_sankey_app.py:105-106 | any reordering of the flows gives the same grouped edges |
| FlowGraph.AggregateEntryWeight | lipid_gene_sankey_app.py:106 | each grouped edge weighs the sum of the weights of the flows with its key |
| FlowGraph.LipidEdgeCounts | lipid_gene_sankey_app.py:99-100 | the lipid flows give class → direction the number of lipids of that class and direction |
| FlowGraph.LipidEdgeWeight | lipid_gene_sankey_app.py:99-106 | for a class that is not one of the two direction tags, after grouping the class → direction edge weighs that count of lipids |
| FlowGraph.FirstIndex | lipid_gene_sankey_app.py:109 | the first position of a label |
| FlowGraph.Dedup | lipid_gene_sankey_app.py:109 | distinct labels, exactly the input's, in order of first appearance |
| FlowGraph.DedupDistinct | lipid_gene_sankey_app.py:109 | a list without repeats is left unchanged |
| FlowGraph.NodeLabels | lipid_gene_sankey_app.py:109 | the node labels are distinct and are exactly the endpoints of the grouped edges |
| FlowGraph.SourcesFirst | lipid_gene_sankey_app.py:109 | every source label comes before every label that appears only as a target |
| FlowGraph.IndexMap | lipid_gene_sankey_app.py:110 | maps exactly the labels, each to a position holding it, and to its own position when the labels are distinct |
| FlowGraph.IndexEdges | lipid_gene_sankey_app.py:112-113 | each edge becomes a link between the indices of its two labels, with its weight |
| FlowGraph.ContainsAt | lipid_gene_sankey_app.py:118-121 | the substring test holds exactly when the piece starts at some position |
| FlowGraph.ContainsNeedsFirst | lipid_gene_sankey_app.py:118-121 | a piece whose first character is absent from the label does not occur in it |
| FlowGraph.FirstMatchDecides | lipid_gene_sankey_app.py:117-129 | the first matching rule decides the colour; gray when no rule matches |
| FlowGraph.PaletteChain | lipid_gene_sankey_app.py:118-129 | the rule table gives the colour of the if/elif chain for every label |
| FlowGraph.ColorOf | lipid_gene_sankey_app.py:118-129 | the chain's colour is the table's colour |
| FlowGraph.NodeColors | lipid_gene_sankey_app.py:116-129 | one colour per node, the table's colour for that node |
| Pipeline.BuildGraph | lipid_gene_sankey_app.py:109-129 | the nodes are the node labels of the grouped edges, and with the colours and links they form a well-formed diagram |
| Pipeline.Select | lipid_gene_sankey_app.py:68-95 | one scored row per cleaned record; the significant lipids pass the lipid threshold; at most the asked-for number of top genes, all significant |
| Pipeline.Analyse | lipid_gene_sankey_app.py:39-106 | a missing gene identifier column fails first, then a missing lipid one; on success the edges are non-empty and strictly sorted and the summary counts are consistent |
| Pipeline.TopGenesEmpty | lipid_gene_sankey_app.py:92-95 | no top gene is picked exactly when fewer than two are asked for or no gene is significant |
| Pipeline.NoFlowsExactly | lipid_gene_sankey_app.py:98-106 | a run has no flow to group exactly when both tables load, no lipid is significant and no top gene is picked |
| Pipeline.Run | lipid_gene_sankey_app.py:39-129 | the run fails exactly when `Analyse` fails, with the same error; on success its edges and summary are `Analyse`'s, its nodes are their node labels, and the diagram is well-formed |
| Pipeline.ExampleFlows | lipid_gene_sankey_app.py:98-103 | a down lipid `PC 16:0` and an up gene `G1` emit `PC → Downregulated_White` (weight 1) and `Upregulated_White → G1` (weight 1.222) |
| Pipeline.ExampleNodes | lipid_gene_sankey_app.py:109 | the nodes of that example are `PC`, `Upregulated_White`, `Downregulated_White`, `G1` |
| Pipeline.ExampleColorLipid | lipid_gene_sankey_app.py:122-123 | `PC` is orange |
| Pipeline.ExampleColorUp | lipid_gene_sankey_app.py:118-119 | `Upregulated_White` is red |
| Pipeline.ExampleColorDown | lipid_gene_sankey_app.py:120-121 | `Downregulated_White` is blue |
| Pipeline.ExampleColorGene | lipid_gene_sankey_app.py:128-129 | a gene name matches no rule and is gray |

## Left out

- The Streamlit page is not modelled: sliders, text inputs, uploads, metrics, buttons and spinners. Their values become the fields of `Pipeline.Config`.
- CSV parsing is not modelled; the tables arrive already parsed.
- The Plotly figure, its layout constants, the HTML and CSV exports and the download buttons are not modelled. The model stops at the data handed to the figure: nodes, colours, links and summary.
- Colours are an enumeration, not the `rgba(...)` strings.
- Floating point is not modelled: values are exact reals. `log2` is a parameter. Facts about the sign of the fold change assume only `Log2Like`.
- `pd.to_numeric(errors='coerce')` is the `parse` parameter. Which strings it accepts is not modelled.
- FoldChange.Log2FC: the fold change is undefined when the Beige mean is exactly -1 or the ratio (White + 1) / (Beige + 1) is zero or negative. In the application a negative ratio, or 0 / 0, gives NaN, which the magnitude filter drops as the model does. A Beige mean of exactly -1 with a White mean above -1, or a White mean of exactly -1 with a Beige mean other than -1, gives an infinite fold change that the filter keeps and the model drops. A Beige mean of exactly -1 with a White mean below -1 gives log2 of minus infinity, which is NaN and is dropped by both. When both means are below -1 the ratio is positive and the fold change is defined in both. Means of -1 or below need negative abundances.
- An identifier pandas reads as a number is reported as `NonTextId` when the tables are cleaned. The application has no such check. For lipids, a numeric identifier column makes the `.str` split at line 82 raise. For genes, a numeric identifier raises a `TypeError` at the substring test of line 118 only when it reaches the node list as a top gene; otherwise the application carries on.
- An identifier column whose name starts with a sample prefix is coerced to numbers by the application at lines 68-69 and 76-77, so its text identifiers become NaN. The model keeps each record's identifier as text whatever the column names; the coerced copy only appears among the record's cells.
- A missing identifier column is reported as `MissingColumn`. In the application it raises a `KeyError`.
- When no flow is emitted the run reports `NoFlows`. In the application, grouping the empty frame raises.
- Selector.Summarize: a hit with a zero fold change is tagged down but counted in neither direction, as in the application. The up and down counts are therefore only bounded. They add up exactly when the threshold is non-negative (Selector.SummaryCountsExact), which the threshold sliders guarantee.
- Node order follows the code: all sources first, then the targets. This is what Pipeline.ExampleNodes and FlowGraph.SourcesFirst state. It is not an interleaved scan of the edges.
- The application adds derived columns to its data frames (means, fold change, direction, class). The model instead computes them into separate values: `Scored`, `Hit` and `Flow`. When the configured identifier column has the name of one of those derived columns (`Beige_Mean`, `White_Mean`, `Gene_log2FC`, `Lipid_log2FC`, `Lipid_Class` or `Direction`), the application overwrites the identifiers at lines 71-73, 79-82 or 88-89 before line 82 or 103 reads them; the model keeps each record's `id` as loaded.
