/** The whole analysis run for one pair of tables and one configuration: cleaning,
    column selection, coercion, fold changes, selection, flows, graph and summary. */
module Pipeline {
  import opened Common
  import opened Loader
  import opened FoldChange
  import opened Selector
  import opened FlowGraph

  /** The run's parameters: identifier columns, sample-column prefixes, thresholds and the top-gene count. */
  datatype Config = Config(
    geneIdColumn: string, lipidIdColumn: string,
    beigeGenePrefix: string, whiteGenePrefix: string,
    beigeLipidPrefix: string, whiteLipidPrefix: string,
    geneThreshold: real, lipidThreshold: real,
    topGenes: nat)

  datatype PipelineError =
    | Load(error: LoadError)  // an identifier column is absent or holds a number
    | NoFlows                 // nothing passed the filters, so there is no edge to group

  /** The diagram data handed to the renderer, and the summary counts. */
  datatype Sankey = Sankey(
    nodes: seq<string>, colors: seq<Color>,
    edges: seq<Flow>, links: seq<Link>,
    summary: Summary)

  /** The node labels are distinct and are exactly the endpoints of the edges. */
  predicate Covers(nodes: seq<string>, edges: seq<Flow>)
  {
    && NoDup(nodes)
    && (forall x :: x in nodes ==> exists i :: 0 <= i < |edges| && (edges[i].source == x || edges[i].target == x))
    && (forall i :: 0 <= i < |edges| ==> edges[i].source in nodes && edges[i].target in nodes)
  }

  /** One colour per node, chosen by the colour table. */
  predicate Colored(nodes: seq<string>, colors: seq<Color>)
  {
    && |colors| == |nodes|
    && (forall i :: 0 <= i < |nodes| ==> colors[i] == TableColor(nodes[i]))
  }

  /** One link per edge, pointing at the nodes of the edge's labels and carrying its weight. */
  predicate Indexed(nodes: seq<string>, edges: seq<Flow>, links: seq<Link>)
  {
    && |links| == |edges|
    && (forall i :: 0 <= i < |links| ==>
          && links[i].sourceIndex < |nodes| && nodes[links[i].sourceIndex] == edges[i].source
          && links[i].targetIndex < |nodes| && nodes[links[i].targetIndex] == edges[i].target
          && links[i].value == edges[i].value)
  }

  /** What the renderer relies on: sorted unique edge keys, distinct node labels that are
      exactly the edge endpoints, one colour per node by the table, every indexed edge
      pointing at the nodes of its labels with its weight, and consistent summary counts. */
  predicate WellFormed(s: Sankey)
  {
    && s.edges != []
    && StrictlySorted(s.edges)
    && Covers(s.nodes, s.edges)
    && Colored(s.nodes, s.colors)
    && Indexed(s.nodes, s.edges, s.links)
    && s.summary.genesUp + s.summary.genesDown <= s.summary.significantGenes
    && s.summary.lipidsUp + s.summary.lipidsDown <= s.summary.significantLipids
  }

  /** Edges indexed through the label dictionary of the node labels point at those labels. */
  lemma LinksIndexed(nodes: seq<string>, edges: seq<Flow>, links: seq<Link>)
    requires Covers(nodes, edges)
    requires |links| == |edges|
    requires forall i :: 0 <= i < |edges| ==>
      links[i] == Link(IndexMap(nodes)[edges[i].source], IndexMap(nodes)[edges[i].target], edges[i].value)
    ensures Indexed(nodes, edges, links)
  {
  }

  /** Builds the graph from the aggregated edges: node labels, their index, the indexed edges
      and the node colours. */
  method BuildGraph(edges: seq<Flow>, summary: Summary) returns (s: Sankey)
    requires edges != [] && StrictlySorted(edges)
    requires summary.genesUp + summary.genesDown <= summary.significantGenes
    requires summary.lipidsUp + summary.lipidsDown <= summary.significantLipids
    ensures WellFormed(s)
    ensures s.edges == edges && s.summary == summary
    ensures s.nodes == NodeLabels(edges)
  {
    var nodes := NodeLabels(edges);
    assert Covers(nodes, edges);
    var index := IndexMap(nodes);
    var links := IndexEdges(edges, index);
    LinksIndexed(nodes, edges, links);
    var colors := NodeColors(nodes);
    s := Sankey(nodes, colors, edges, links, summary);
  }

  /** The rows of one run at each stage after loading: the scored rows of both tables, their
      significant hits and the top genes. */
  datatype Stages = Stages(
    geneRows: seq<Scored>, lipidRows: seq<Scored>,
    sigGenes: seq<Hit>, sigLipids: seq<Hit>, top: seq<Hit>)

  /** Scores and selects the cleaned records `g` and `l` of the two tables: the sample columns
      are the ones carrying each prefix, they are coerced to numbers, each record is scored, the
      significant hits are kept and the top genes are picked among the significant genes. */
  function Select(genes: Table, lipids: Table, g: seq<Record>, l: seq<Record>, cfg: Config,
                  parse: string -> Option<real>, log2: real -> real): (st: Stages)
    ensures |st.geneRows| == |g| && |st.lipidRows| == |l|
    ensures |st.sigGenes| <= |g| && |st.sigLipids| <= |l|
    ensures forall i :: 0 <= i < |st.sigLipids| ==> Abs(st.sigLipids[i].fc) > cfg.lipidThreshold
    ensures |st.top| <= cfg.topGenes
    ensures forall i :: 0 <= i < |st.top| ==> st.top[i] in st.sigGenes
  {
    var beigeGeneCols := ColumnsWithPrefix(genes.columns, cfg.beigeGenePrefix);
    var whiteGeneCols := ColumnsWithPrefix(genes.columns, cfg.whiteGenePrefix);
    var beigeLipidCols := ColumnsWithPrefix(lipids.columns, cfg.beigeLipidPrefix);
    var whiteLipidCols := ColumnsWithPrefix(lipids.columns, cfg.whiteLipidPrefix);
    var geneRows := ScoreAll(CoerceAll(g, beigeGeneCols + whiteGeneCols, parse), beigeGeneCols, whiteGeneCols, log2);
    var lipidRows := ScoreAll(CoerceAll(l, beigeLipidCols + whiteLipidCols, parse), beigeLipidCols, whiteLipidCols, log2);
    var sigGenes := Significant(geneRows, cfg.geneThreshold);
    var sigLipids := Significant(lipidRows, cfg.lipidThreshold);
    Stages(geneRows, lipidRows, sigGenes, sigLipids, TopGenes(sigGenes, cfg.topGenes))
  }

  /** What a run computes before the layout: the grouped edges and the summary counts. */
  datatype Analysis = Analysis(edges: seq<Flow>, summary: Summary)

  /** The analysis as one function of the inputs: a missing identifier column fails, gene table
      first; a run that emits no flow fails with `NoFlows`; otherwise the edges are the emitted
      flows grouped by key and the summary counts the rows and hits. */
  function Analyse(genes: Table, lipids: Table, cfg: Config,
                   parse: string -> Option<real>, log2: real -> real): (a: Result<Analysis, PipelineError>)
    ensures cfg.geneIdColumn !in genes.columns ==> a == Failure(Load(MissingColumn(cfg.geneIdColumn)))
    ensures CleanGenes(genes, cfg.geneIdColumn).Success? && cfg.lipidIdColumn !in lipids.columns ==>
      a == Failure(Load(MissingColumn(cfg.lipidIdColumn)))
    ensures a.Success? ==> a.value.edges != [] && StrictlySorted(a.value.edges)
    ensures a.Success? ==> a.value.summary.genesUp + a.value.summary.genesDown <= a.value.summary.significantGenes
    ensures a.Success? ==> a.value.summary.lipidsUp + a.value.summary.lipidsDown <= a.value.summary.significantLipids
  {
    match CleanGenes(genes, cfg.geneIdColumn)
    case Failure(e) => Failure(Load(e))
    case Success(g) =>
      match CleanLipids(lipids, cfg.lipidIdColumn)
      case Failure(e) => Failure(Load(e))
      case Success(l) =>
        var st := Select(genes, lipids, g, l, cfg, parse, log2);
        var flows := EmittedFlows(st.sigLipids, st.top);
        if flows == [] then Failure(NoFlows)
        else
          var edges := Aggregate(flows);
          assert edges != [] by {
            assert KeyOf(flows[0]) in KeySet(edges);
          }
          Success(Analysis(edges, Summarize(st.geneRows, st.sigGenes, st.lipidRows, st.sigLipids)))
  }

  /** A run reports `NoFlows` exactly when both tables load, no lipid is significant and no top
      gene is picked, either because fewer than two top genes are asked for or because no gene
      is significant. */
  lemma NoFlowsExactly(genes: Table, lipids: Table, cfg: Config,
                       parse: string -> Option<real>, log2: real -> real)
    ensures Analyse(genes, lipids, cfg, parse, log2) == Failure(NoFlows) <==>
      && CleanGenes(genes, cfg.geneIdColumn).Success?
      && CleanLipids(lipids, cfg.lipidIdColumn).Success?
      && var st := Select(genes, lipids, CleanGenes(genes, cfg.geneIdColumn).value,
                          CleanLipids(lipids, cfg.lipidIdColumn).value, cfg, parse, log2);
         st.sigLipids == [] && (cfg.topGenes < 2 || st.sigGenes == [])
  {
    var cg := CleanGenes(genes, cfg.geneIdColumn);
    var cl := CleanLipids(lipids, cfg.lipidIdColumn);
    if cg.Success? && cl.Success? {
      var st := Select(genes, lipids, cg.value, cl.value, cfg, parse, log2);
      var flows := EmittedFlows(st.sigLipids, st.top);
      assert |flows| == |st.sigLipids| + |st.top|;
      TopGenesEmpty(st.sigGenes, cfg.topGenes);
      assert Analyse(genes, lipids, cfg, parse, log2) == Failure(NoFlows) <==> flows == [];
    }
  }

  /** No top gene is picked exactly when fewer than two are asked for or none is significant. */
  lemma TopGenesEmpty(sig: seq<Hit>, n: nat)
    ensures TopGenes(sig, n) == [] <==> n < 2 || sig == []
  {
    DirectionsPartition(sig);
  }

  /** One run of the analysis. The gene identifier column is checked first, then the lipid one;
      a run where no flow is emitted reports `NoFlows`. */
  method Run(genes: Table, lipids: Table, cfg: Config, parse: string -> Option<real>, log2: real -> real)
    returns (r: Result<Sankey, PipelineError>)
    ensures cfg.geneIdColumn !in genes.columns ==> r == Failure(Load(MissingColumn(cfg.geneIdColumn)))
    ensures CleanGenes(genes, cfg.geneIdColumn).Success? && cfg.lipidIdColumn !in lipids.columns ==>
      r == Failure(Load(MissingColumn(cfg.lipidIdColumn)))
    ensures r.Success? ==> cfg.geneIdColumn in genes.columns && cfg.lipidIdColumn in lipids.columns
    ensures r.Success? ==> WellFormed(r.value)
    ensures r.Failure? <==> Analyse(genes, lipids, cfg, parse, log2).Failure?
    ensures r.Failure? ==> r.error == Analyse(genes, lipids, cfg, parse, log2).error
    ensures r.Success? ==>
      && r.value.edges == Analyse(genes, lipids, cfg, parse, log2).value.edges
      && r.value.summary == Analyse(genes, lipids, cfg, parse, log2).value.summary
      && r.value.nodes == NodeLabels(r.value.edges)
  {
    var g := CleanGenes(genes, cfg.geneIdColumn);
    if g.Failure? {
      return Failure(Load(g.error));
    }
    var l := CleanLipids(lipids, cfg.lipidIdColumn);
    if l.Failure? {
      return Failure(Load(l.error));
    }
    var beigeGeneCols := ColumnsWithPrefix(genes.columns, cfg.beigeGenePrefix);
    var whiteGeneCols := ColumnsWithPrefix(genes.columns, cfg.whiteGenePrefix);
    var beigeLipidCols := ColumnsWithPrefix(lipids.columns, cfg.beigeLipidPrefix);
    var whiteLipidCols := ColumnsWithPrefix(lipids.columns, cfg.whiteLipidPrefix);

    var geneRecs := CoerceColumns(g.value, beigeGeneCols + whiteGeneCols, parse);
    var geneRows := ScoreAll(geneRecs, beigeGeneCols, whiteGeneCols, log2);
    var lipidRecs := CoerceColumns(l.value, beigeLipidCols + whiteLipidCols, parse);
    var lipidRows := ScoreAll(lipidRecs, beigeLipidCols, whiteLipidCols, log2);

    var sigGenes := Significant(geneRows, cfg.geneThreshold);
    var sigLipids := Significant(lipidRows, cfg.lipidThreshold);
    var top := TopGenes(sigGenes, cfg.topGenes);
    assert Select(genes, lipids, g.value, l.value, cfg, parse, log2) == Stages(geneRows, lipidRows, sigGenes, sigLipids, top);

    var flows := BuildFlows(sigLipids, top);
    if flows == [] {
      return Failure(NoFlows);
    }
    var edges := Aggregate(flows);
    assert edges != [] by {
      assert KeyOf(flows[0]) in KeySet(edges);
    }
    var summary := Summarize(geneRows, sigGenes, lipidRows, sigLipids);
    var s := BuildGraph(edges, summary);
    return Success(s);
  }

  /** A worked example of the fold-change stage: a gene with Beige samples 1 and 3 and White
      samples 6 and 6 has means 2 and 6 and fold change log2((6 + 1) / (2 + 1)). */
  lemma ExampleGeneScore(log2: real -> real)
    ensures
      var cells := map["SampleID" := Text("G1"),
                       "Hannah_Beige_1" := Num(1.0), "Hannah_Beige_2" := Num(3.0),
                       "Hannah_White_1" := Num(6.0), "Hannah_White_2" := Num(6.0)];
      Score(Record("G1", cells), ["Hannah_Beige_1", "Hannah_Beige_2"], ["Hannah_White_1", "Hannah_White_2"], log2)
        == Scored("G1", Some(2.0), Some(6.0), Some(log2(7.0 / 3.0)))
  {
    var cells := map["SampleID" := Text("G1"),
                     "Hannah_Beige_1" := Num(1.0), "Hannah_Beige_2" := Num(3.0),
                     "Hannah_White_1" := Num(6.0), "Hannah_White_2" := Num(6.0)];
    assert RowValues(cells, ["Hannah_Beige_1", "Hannah_Beige_2"]) == [Num(1.0), Num(3.0)];
    assert RowValues(cells, ["Hannah_White_1", "Hannah_White_2"]) == [Num(6.0), Num(6.0)];
    assert PresentValues([Num(1.0), Num(3.0)]) == [1.0, 3.0];
    assert PresentValues([Num(6.0), Num(6.0)]) == [6.0, 6.0];
    assert Mean([Num(1.0), Num(3.0)]) == Some(2.0) by {
      assert Sum([1.0, 3.0]) == 4.0;
    }
    assert Mean([Num(6.0), Num(6.0)]) == Some(6.0) by {
      assert Sum([6.0, 6.0]) == 12.0;
    }
  }

  /** A worked example with a missing sample: a lipid with Beige samples 1 and 1 and White
      samples 0 and missing has means 1 and 0, so its fold change is log2(1/2) = -1. */
  lemma ExampleLipidScore(log2: real -> real)
    requires Log2Like(log2)
    ensures
      var cells := map["Metabolite" := Text("PC 16:0"),
                       "Beige_1" := Num(1.0), "Beige_2" := Num(1.0), "White_1" := Num(0.0)];
      Score(Record("PC 16:0", cells), ["Beige_1", "Beige_2"], ["White_1", "White_2"], log2)
        == Scored("PC 16:0", Some(1.0), Some(0.0), Some(-1.0))
  {
    var cells := map["Metabolite" := Text("PC 16:0"),
                     "Beige_1" := Num(1.0), "Beige_2" := Num(1.0), "White_1" := Num(0.0)];
    assert RowValues(cells, ["Beige_1", "Beige_2"]) == [Num(1.0), Num(1.0)];
    assert RowValues(cells, ["White_1", "White_2"]) == [Num(0.0), Missing];
    assert PresentValues([Num(1.0), Num(1.0)]) == [1.0, 1.0];
    assert PresentValues([Num(0.0), Missing]) == [0.0];
    assert Mean([Num(1.0), Num(1.0)]) == Some(1.0) by {
      assert Sum([1.0, 1.0]) == 2.0;
    }
    assert Mean([Num(0.0), Missing]) == Some(0.0) by {
      assert Sum([0.0]) == 0.0;
    }
    assert Log2FC(Some(0.0), Some(1.0), log2) == Some(log2(0.5));
  }

  /** A worked example: one up gene `G1` and one down lipid `PC 16:0` emit a lipid edge
      from class `PC` and a gene edge to `G1`, and the lipid edge sorts first. */
  lemma ExampleFlows()
    ensures EmittedFlows([Hit("PC 16:0", -2.46)], [Hit("G1", 1.222)])
         == [Flow("PC", DownLabel, 1.0), Flow(UpLabel, "G1", 1.222)]
    ensures StrictlySorted([Flow("PC", DownLabel, 1.0), Flow(UpLabel, "G1", 1.222)])
  {
    assert LipidClass("PC 16:0") == "PC";
    assert StrLess("PC", UpLabel);
  }

  /** In the worked example the sources come before the other labels. */
  lemma ExampleNodes()
    ensures NodeLabels([Flow("PC", DownLabel, 1.0), Flow(UpLabel, "G1", 1.222)]) == ["PC", UpLabel, DownLabel, "G1"]
  {
    var edges := [Flow("PC", DownLabel, 1.0), Flow(UpLabel, "G1", 1.222)];
    var all: seq<string> := ["PC", UpLabel, DownLabel, "G1"];
    assert Sources(edges) + Targets(edges) == all;
    assert NoDup(all) by {
      assert all[0][0] == 'P' && all[1][0] == 'U' && all[2][0] == 'D' && all[3][0] == 'G';
    }
    DedupDistinct(all);
  }

  /** In the worked example the lipid class `PC` is coloured as a phospholipid. */
  lemma ExampleColorLipid()
    ensures FirstMatch(Palette, "PC", NeutralGray) == Orange
  {
    var up: string := "Upregulated";
    var down: string := "Downregulated";
    ContainsNeedsFirst("PC", up);
    ContainsNeedsFirst("PC", down);
    PaletteChain("PC");
  }

  /** In the worked example the up tag is coloured warm red. */
  lemma ExampleColorUp()
    ensures FirstMatch(Palette, UpLabel, NeutralGray) == WarmRed
  {
    var up: string := "Upregulated";
    ContainsFrom(UpLabel, up, 0);
    PaletteChain(UpLabel);
  }

  /** In the worked example the down tag is coloured cool blue. */
  lemma ExampleColorDown()
    ensures FirstMatch(Palette, DownLabel, NeutralGray) == CoolBlue
  {
    var up: string := "Upregulated";
    var down: string := "Downregulated";
    assert !Contains(DownLabel, up) by {
      assert up[0] == 'U' && 'U' !in DownLabel;
      ContainsNeedsFirst(DownLabel, up);
    }
    assert Contains(DownLabel, down) by {
      assert DownLabel[0..] == DownLabel;
      ContainsFrom(DownLabel, down, 0);
    }
    PaletteChain(DownLabel);
  }

  /** In the worked example the gene `G1` matches no rule and is gray. */
  lemma ExampleColorGene()
    ensures FirstMatch(Palette, "G1", NeutralGray) == NeutralGray
  {
    var up: string := "Upregulated";
    var down: string := "Downregulated";
    ContainsNeedsFirst("G1", up);
    ContainsNeedsFirst("G1", down);
    PaletteChain("G1");
  }
}
