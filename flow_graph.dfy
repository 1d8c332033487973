/** Stage 4, the flow-graph builder: emits one flow per significant lipid and
    per top gene, sums flows by (source, target) in sorted key order, lists the
    distinct node labels, indexes every edge and classifies every node's colour. */
module FlowGraph {
  import opened Common
  import opened FoldChange
  import opened Selector

  /** One emitted (or aggregated) weighted edge between two labels. */
  datatype Flow = Flow(source: string, target: string, value: real)

  /** The grouping key of a flow. */
  datatype Key = Key(source: string, target: string)

  function KeyOf(f: Flow): Key
  {
    Key(f.source, f.target)
  }

  const UpLabel: string := "Upregulated_White"
  const DownLabel: string := "Downregulated_White"

  /** The text tag of a direction. */
  function DirectionLabel(d: Direction): (tag: string)
    ensures tag == UpLabel <==> d.Up?
    ensures tag == DownLabel <==> d.Down?
  {
    assert DownLabel != UpLabel by {
      assert DownLabel[0] == 'D' && UpLabel[0] == 'U';
    }
    if d == Up then UpLabel else DownLabel
  }

  /** The flow of one significant lipid: its class to its direction, weight one. */
  function LipidFlow(h: Hit): (f: Flow)
    ensures f.source <= h.id && ' ' !in f.source
    ensures |f.source| < |h.id| ==> h.id[|f.source|] == ' '
    ensures f.target == UpLabel <==> h.fc > 0.0
    ensures f.target == DownLabel <==> h.fc <= 0.0
    ensures f.value == 1.0
  {
    Flow(LipidClass(h.id), DirectionLabel(DirectionOf(h.fc)), 1.0)
  }

  /** The flow of one top gene: its direction to its identifier, weight the magnitude of its fold change. */
  function GeneFlow(h: Hit): (f: Flow)
    ensures f.source == UpLabel <==> h.fc > 0.0
    ensures f.source == DownLabel <==> h.fc <= 0.0
    ensures f.target == h.id
    ensures f.value >= 0.0 && (f.value == h.fc || f.value == -h.fc)
  {
    Flow(DirectionLabel(DirectionOf(h.fc)), h.id, Abs(h.fc))
  }

  function LipidFlows(lipids: seq<Hit>): (flows: seq<Flow>)
    ensures |flows| == |lipids| && forall i :: 0 <= i < |lipids| ==> flows[i] == LipidFlow(lipids[i])
  {
    seq(|lipids|, i requires 0 <= i < |lipids| => LipidFlow(lipids[i]))
  }

  function GeneFlows(genes: seq<Hit>): (flows: seq<Flow>)
    ensures |flows| == |genes| && forall i :: 0 <= i < |genes| ==> flows[i] == GeneFlow(genes[i])
  {
    seq(|genes|, i requires 0 <= i < |genes| => GeneFlow(genes[i]))
  }

  /** Every emitted flow: all lipid flows in row order, then all gene flows in row order. */
  function EmittedFlows(lipids: seq<Hit>, genes: seq<Hit>): seq<Flow>
  {
    LipidFlows(lipids) + GeneFlows(genes)
  }

  /** The flow list built by two appending loops, lipids first (lines 98-103 of the application). */
  method BuildFlows(lipids: seq<Hit>, genes: seq<Hit>) returns (flows: seq<Flow>)
    ensures flows == EmittedFlows(lipids, genes)
  {
    flows := [];
    for i := 0 to |lipids|
      invariant flows == LipidFlows(lipids[..i])
    {
      flows := flows + [LipidFlow(lipids[i])];
    }
    assert lipids[..|lipids|] == lipids;
    for j := 0 to |genes|
      invariant flows == LipidFlows(lipids) + GeneFlows(genes[..j])
    {
      flows := flows + [GeneFlow(genes[j])];
    }
    assert genes[..|genes|] == genes;
  }

  // ---------------------------------------------------------------------------
  // Sorted keys

  /** Code-point lexicographic order on strings; a proper prefix comes first. */
  predicate StrLess(a: string, b: string)
  {
    if b == [] then false
    else if a == [] then true
    else a[0] < b[0] || (a[0] == b[0] && StrLess(a[1..], b[1..]))
  }

  lemma {:induction false} StrLessIrreflexive(a: string)
    ensures !StrLess(a, a)
  {
    if a != [] {
      StrLessIrreflexive(a[1..]);
    }
  }

  lemma {:induction false} StrLessTransitive(a: string, b: string, c: string)
    requires StrLess(a, b) && StrLess(b, c)
    ensures StrLess(a, c)
  {
    if a != [] && a[0] == b[0] && b[0] == c[0] {
      StrLessTransitive(a[1..], b[1..], c[1..]);
    }
  }

  lemma {:induction false} StrLessTotal(a: string, b: string)
    requires a != b
    ensures StrLess(a, b) || StrLess(b, a)
  {
    if a != [] && b != [] && a[0] == b[0] {
      assert a == [a[0]] + a[1..] && b == [b[0]] + b[1..];
      StrLessTotal(a[1..], b[1..]);
    }
  }

  /** The order of the grouped keys: by source, then by target. */
  predicate KeyLess(k1: Key, k2: Key)
  {
    StrLess(k1.source, k2.source) || (k1.source == k2.source && StrLess(k1.target, k2.target))
  }

  lemma KeyLessIrreflexive(k: Key)
    ensures !KeyLess(k, k)
  {
    StrLessIrreflexive(k.source);
    StrLessIrreflexive(k.target);
  }

  lemma KeyLessTransitive(k1: Key, k2: Key, k3: Key)
    requires KeyLess(k1, k2) && KeyLess(k2, k3)
    ensures KeyLess(k1, k3)
  {
    if StrLess(k1.source, k2.source) && StrLess(k2.source, k3.source) {
      StrLessTransitive(k1.source, k2.source, k3.source);
    } else if k1.source == k2.source && k2.source == k3.source {
      StrLessTransitive(k1.target, k2.target, k3.target);
    }
  }

  lemma KeyLessTotal(k1: Key, k2: Key)
    requires k1 != k2
    ensures KeyLess(k1, k2) || KeyLess(k2, k1)
  {
    if k1.source != k2.source {
      StrLessTotal(k1.source, k2.source);
    } else {
      StrLessTotal(k1.target, k2.target);
    }
  }

  /** Keys strictly increase along the sequence, so no key occurs twice. */
  predicate StrictlySorted(s: seq<Flow>)
  {
    forall i, j :: 0 <= i < j < |s| ==> KeyLess(KeyOf(s[i]), KeyOf(s[j]))
  }

  /** The keys occurring in a flow sequence. */
  function KeySet(s: seq<Flow>): (ks: set<Key>)
    ensures forall i :: 0 <= i < |s| ==> KeyOf(s[i]) in ks
    ensures forall k :: k in ks ==> exists i :: 0 <= i < |s| && KeyOf(s[i]) == k
  {
    if s == [] then {}
    else
      assert forall i :: 1 <= i < |s| ==> s[i] == s[1..][i - 1];
      {KeyOf(s[0])} + KeySet(s[1..])
  }

  /** The total weight of the flows with key `k`. */
  function SumFor(s: seq<Flow>, k: Key): real
  {
    if s == [] then 0.0 else (if KeyOf(s[0]) == k then s[0].value else 0.0) + SumFor(s[1..], k)
  }

  /** The total weight of all flows. */
  function Total(s: seq<Flow>): real
  {
    if s == [] then 0.0 else s[0].value + Total(s[1..])
  }

  /** A key absent from a sequence has no weight there. */
  lemma {:induction false} SumForAbsent(s: seq<Flow>, k: Key)
    requires k !in KeySet(s)
    ensures SumFor(s, k) == 0.0
  {
    if s != [] {
      SumForAbsent(s[1..], k);
    }
  }

  /** In a strictly sorted sequence each flow carries the whole weight of its key. */
  lemma {:induction false} SortedValueIsSum(s: seq<Flow>, i: nat)
    requires StrictlySorted(s)
    requires i < |s|
    ensures s[i].value == SumFor(s, KeyOf(s[i]))
  {
    var k := KeyOf(s[i]);
    if i == 0 {
      assert k !in KeySet(s[1..]) by {
        if k in KeySet(s[1..]) {
          var j :| 0 <= j < |s[1..]| && KeyOf(s[1..][j]) == k;
          assert KeyLess(k, KeyOf(s[j + 1]));
          KeyLessIrreflexive(k);
        }
      }
      SumForAbsent(s[1..], k);
    } else {
      assert KeyLess(KeyOf(s[0]), k);
      KeyLessIrreflexive(k);
      assert s[1..][i - 1] == s[i];
      SortedValueIsSum(s[1..], i - 1);
    }
  }

  /** `r` is `agg` with the flow `f` added: the key of `f` is present, its weight has grown
      by the weight of `f`, every other key keeps its weight, and the total has grown by it too. */
  ghost predicate Absorbs(agg: seq<Flow>, f: Flow, r: seq<Flow>)
  {
    && KeySet(r) == KeySet(agg) + {KeyOf(f)}
    && (forall k :: SumFor(r, k) == SumFor(agg, k) + (if k == KeyOf(f) then f.value else 0.0))
    && Total(r) == Total(agg) + f.value
  }

  /** A flow whose key is below every key of a sorted aggregate opens a new first entry. */
  lemma PrependSmaller(agg: seq<Flow>, f: Flow)
    requires StrictlySorted(agg)
    requires agg != [] ==> KeyLess(KeyOf(f), KeyOf(agg[0]))
    ensures StrictlySorted([f] + agg) && Absorbs(agg, f, [f] + agg)
  {
    var r := [f] + agg;
    assert r[1..] == agg;
    forall i, j | 0 <= i < j < |r| ensures KeyLess(KeyOf(r[i]), KeyOf(r[j])) {
      if i == 0 && j > 1 {
        KeyLessTransitive(KeyOf(f), KeyOf(agg[0]), KeyOf(agg[j - 1]));
      }
    }
  }

  /** A flow with the key of the first entry adds its weight to that entry. */
  lemma MergeFirst(agg: seq<Flow>, f: Flow)
    requires StrictlySorted(agg)
    requires agg != [] && KeyOf(f) == KeyOf(agg[0])
    ensures var r := [Flow(f.source, f.target, agg[0].value + f.value)] + agg[1..];
      StrictlySorted(r) && Absorbs(agg, f, r)
  {
    var r := [Flow(f.source, f.target, agg[0].value + f.value)] + agg[1..];
    assert r[1..] == agg[1..];
    assert forall i :: 1 <= i < |r| ==> r[i] == agg[i];
  }

  /** Keeping the first entry in front of a sorted rest stays sorted when the rest holds only
      keys above it. */
  lemma KeepFirstSorted(agg: seq<Flow>, f: Flow, rest: seq<Flow>)
    requires StrictlySorted(agg)
    requires agg != [] && KeyLess(KeyOf(agg[0]), KeyOf(f))
    requires StrictlySorted(rest) && KeySet(rest) == KeySet(agg[1..]) + {KeyOf(f)}
    ensures StrictlySorted([agg[0]] + rest)
  {
    var r := [agg[0]] + rest;
    assert r[1..] == rest;
    forall i, j | 0 <= i < j < |r| ensures KeyLess(KeyOf(r[i]), KeyOf(r[j])) {
      if i == 0 {
        assert KeyOf(r[j]) in KeySet(rest);
        if KeyOf(r[j]) in KeySet(agg[1..]) {
          var m :| 0 <= m < |agg[1..]| && KeyOf(agg[1..][m]) == KeyOf(r[j]);
          assert agg[1..][m] == agg[m + 1];
        }
      }
    }
  }

  /** A flow with a key above the first entry's is absorbed by the rest of the aggregate. */
  lemma KeepFirst(agg: seq<Flow>, f: Flow, rest: seq<Flow>)
    requires StrictlySorted(agg)
    requires agg != [] && KeyLess(KeyOf(agg[0]), KeyOf(f))
    requires StrictlySorted(rest) && Absorbs(agg[1..], f, rest)
    ensures StrictlySorted([agg[0]] + rest) && Absorbs(agg, f, [agg[0]] + rest)
  {
    var r := [agg[0]] + rest;
    assert r[1..] == rest;
    assert agg == [agg[0]] + agg[1..];
    KeepFirstSorted(agg, f, rest);
    forall k ensures SumFor(r, k) == SumFor(agg, k) + (if k == KeyOf(f) then f.value else 0.0) {
      assert SumFor(r, k) == (if KeyOf(agg[0]) == k then agg[0].value else 0.0) + SumFor(rest, k);
    }
  }

  /** Adds one flow to a sorted aggregate: its weight joins the entry of its key, or a new entry opens in key order. */
  function Insert(agg: seq<Flow>, f: Flow): (r: seq<Flow>)
    requires StrictlySorted(agg)
    ensures StrictlySorted(r)
    ensures Absorbs(agg, f, r)
    ensures |r| <= |agg| + 1
  {
    if agg == [] || KeyLess(KeyOf(f), KeyOf(agg[0])) then
      PrependSmaller(agg, f);
      [f] + agg
    else if KeyOf(f) == KeyOf(agg[0]) then
      MergeFirst(agg, f);
      [Flow(f.source, f.target, agg[0].value + f.value)] + agg[1..]
    else
      KeyLessTotal(KeyOf(f), KeyOf(agg[0]));
      var rest := Insert(agg[1..], f);
      KeepFirst(agg, f, rest);
      [agg[0]] + rest
  }

  /** The aggregated flows (line 106 of the application): one entry per key, in sorted key order,
      whose weight is the sum of the weights of the flows with that key. */
  function Aggregate(flows: seq<Flow>): (agg: seq<Flow>)
    ensures StrictlySorted(agg)
    ensures KeySet(agg) == KeySet(flows)
    ensures forall k :: SumFor(agg, k) == SumFor(flows, k)
    ensures Total(agg) == Total(flows)
    ensures |agg| <= |flows|
  {
    if flows == [] then []
    else Insert(Aggregate(flows[1..]), flows[0])
  }

  lemma {:induction false} SumForAppend(a: seq<Flow>, b: seq<Flow>, k: Key)
    ensures SumFor(a + b, k) == SumFor(a, k) + SumFor(b, k)
  {
    if a == [] {
      assert a + b == b;
    } else {
      assert (a + b)[1..] == a[1..] + b;
      SumForAppend(a[1..], b, k);
    }
  }

  /** Taking one flow out of the middle removes just its own weight. */
  lemma SumForRemoveAt(b: seq<Flow>, p: nat, k: Key)
    requires p < |b|
    ensures SumFor(b, k) == (if KeyOf(b[p]) == k then b[p].value else 0.0) + SumFor(b[..p] + b[p + 1..], k)
  {
    assert b == b[..p] + [b[p]] + b[p + 1..];
    SumForAppend(b[..p] + [b[p]], b[p + 1..], k);
    SumForAppend(b[..p], [b[p]], k);
    SumForAppend(b[..p], b[p + 1..], k);
    assert [b[p]][1..] == [];
  }

  lemma MultisetRemoveAt(a: seq<Flow>, b: seq<Flow>, p: nat)
    requires multiset(a) == multiset(b)
    requires a != [] && p < |b| && b[p] == a[0]
    ensures multiset(a[1..]) == multiset(b[..p] + b[p + 1..])
  {
    var x := a[0];
    var rest := b[..p] + b[p + 1..];
    assert b == (b[..p] + [x]) + b[p + 1..];
    assert a == [x] + a[1..];
    assert multiset(b) == multiset(b[..p]) + multiset{x} + multiset(b[p + 1..]);
    assert multiset(rest) == multiset(b[..p]) + multiset(b[p + 1..]);
    assert multiset(a) == multiset{x} + multiset(a[1..]);
    assert multiset(a[1..]) == multiset(a) - multiset{x};
    assert multiset(rest) == multiset(b) - multiset{x};
  }

  /** Reordering flows changes no key's summed weight. */
  lemma {:induction false} SumForPermutation(a: seq<Flow>, b: seq<Flow>, k: Key)
    requires multiset(a) == multiset(b)
    ensures SumFor(a, k) == SumFor(b, k)
  {
    if a == [] {
      assert |b| == |multiset(b)| == 0;
    } else {
      assert a[0] in multiset(b);
      var p :| 0 <= p < |b| && b[p] == a[0];
      MultisetRemoveAt(a, b, p);
      SumForPermutation(a[1..], b[..p] + b[p + 1..], k);
      SumForRemoveAt(b, p, k);
    }
  }

  /** Reordering flows changes no key's presence. */
  lemma KeySetPermutation(a: seq<Flow>, b: seq<Flow>)
    requires multiset(a) == multiset(b)
    ensures KeySet(a) == KeySet(b)
  {
    forall k | k in KeySet(a) ensures k in KeySet(b) {
      var i :| 0 <= i < |a| && KeyOf(a[i]) == k;
      assert a[i] in multiset(b);
    }
    forall k | k in KeySet(b) ensures k in KeySet(a) {
      var i :| 0 <= i < |b| && KeyOf(b[i]) == k;
      assert b[i] in multiset(a);
    }
  }

  /** The first key of a strictly sorted sequence occurs nowhere after it. */
  lemma HeadKeyNotInTail(s: seq<Flow>)
    requires StrictlySorted(s) && s != []
    ensures KeyOf(s[0]) !in KeySet(s[1..])
  {
    if KeyOf(s[0]) in KeySet(s[1..]) {
      var j :| 0 <= j < |s[1..]| && KeyOf(s[1..][j]) == KeyOf(s[0]);
      assert KeyLess(KeyOf(s[0]), KeyOf(s[j + 1]));
      KeyLessIrreflexive(KeyOf(s[0]));
    }
  }

  /** Two strictly sorted flow sequences with the same keys start with the same key. */
  lemma SameFirstKey(a: seq<Flow>, b: seq<Flow>)
    requires StrictlySorted(a) && StrictlySorted(b)
    requires KeySet(a) == KeySet(b) && a != [] && b != []
    ensures KeyOf(a[0]) == KeyOf(b[0])
  {
    var ka := KeyOf(a[0]);
    var kb := KeyOf(b[0]);
    if ka != kb {
      assert ka in KeySet(b);
      var j :| 0 <= j < |b| && KeyOf(b[j]) == ka;
      assert kb in KeySet(a);
      var i :| 0 <= i < |a| && KeyOf(a[i]) == kb;
      KeyLessTransitive(ka, kb, ka);
      KeyLessIrreflexive(ka);
    }
  }

  /** Removing equal first entries from two strictly sorted sequences with the same keys and
      weights leaves tails with the same keys and weights. */
  lemma SameTails(a: seq<Flow>, b: seq<Flow>)
    requires StrictlySorted(a) && StrictlySorted(b)
    requires KeySet(a) == KeySet(b)
    requires forall k :: SumFor(a, k) == SumFor(b, k)
    requires a != [] && b != [] && a[0] == b[0]
    ensures StrictlySorted(a[1..]) && StrictlySorted(b[1..])
    ensures KeySet(a[1..]) == KeySet(b[1..])
    ensures forall k :: SumFor(a[1..], k) == SumFor(b[1..], k)
  {
    var ka := KeyOf(a[0]);
    HeadKeyNotInTail(a);
    HeadKeyNotInTail(b);
    assert KeySet(a[1..]) == KeySet(a) - {ka};
    assert KeySet(b[1..]) == KeySet(b) - {ka};
    forall k ensures SumFor(a[1..], k) == SumFor(b[1..], k) {
      assert SumFor(a, k) == (if ka == k then a[0].value else 0.0) + SumFor(a[1..], k);
      assert SumFor(b, k) == (if ka == k then b[0].value else 0.0) + SumFor(b[1..], k);
    }
  }

  /** A strictly sorted flow sequence is determined by its keys and their weights. */
  lemma {:induction false} SortedUnique(a: seq<Flow>, b: seq<Flow>)
    requires StrictlySorted(a) && StrictlySorted(b)
    requires KeySet(a) == KeySet(b)
    requires forall k :: SumFor(a, k) == SumFor(b, k)
    ensures a == b
  {
    if a != [] && b != [] {
      SameFirstKey(a, b);
      SortedValueIsSum(a, 0);
      SortedValueIsSum(b, 0);
      assert a[0] == b[0];
      SameTails(a, b);
      SortedUnique(a[1..], b[1..]);
      assert a == [a[0]] + a[1..] && b == [b[0]] + b[1..];
    }
  }

  /** Aggregation does not depend on the order in which flows are emitted. */
  lemma AggregateOrderIndependent(a: seq<Flow>, b: seq<Flow>)
    requires multiset(a) == multiset(b)
    ensures Aggregate(a) == Aggregate(b)
  {
    KeySetPermutation(a, b);
    forall k ensures SumFor(Aggregate(a), k) == SumFor(Aggregate(b), k) {
      SumForPermutation(a, b, k);
    }
    SortedUnique(Aggregate(a), Aggregate(b));
  }

  /** Each aggregated entry weighs exactly the summed weight of the emitted flows with its key. */
  lemma AggregateEntryWeight(flows: seq<Flow>)
    ensures forall i :: 0 <= i < |Aggregate(flows)| ==>
      Aggregate(flows)[i].value == SumFor(flows, KeyOf(Aggregate(flows)[i]))
  {
    var agg := Aggregate(flows);
    forall i | 0 <= i < |agg| ensures agg[i].value == SumFor(flows, KeyOf(agg[i])) {
      SortedValueIsSum(agg, i);
    }
  }

  /** The significant lipids of class `cls` and direction `d`. */
  function LipidsOf(lipids: seq<Hit>, cls: string, d: Direction): seq<Hit>
  {
    Filter(lipids, (h: Hit) => LipidClass(h.id) == cls && DirectionOf(h.fc) == d)
  }

  /** Among the lipid flows, the edge from a class to a direction weighs the number of
      significant lipids of that class and direction: each contributes exactly one. */
  lemma {:induction false} LipidEdgeCounts(lipids: seq<Hit>, cls: string, d: Direction)
    ensures SumFor(LipidFlows(lipids), Key(cls, DirectionLabel(d))) == |LipidsOf(lipids, cls, d)| as real
  {
    if lipids != [] {
      LipidEdgeCounts(lipids[1..], cls, d);
      assert LipidFlows(lipids)[1..] == LipidFlows(lipids[1..]);
    }
  }

  /** Gene flows start at a direction tag, so they add nothing to an edge leaving any other label. */
  lemma {:induction false} GeneFlowsFromTags(genes: seq<Hit>, k: Key)
    requires k.source != UpLabel && k.source != DownLabel
    ensures SumFor(GeneFlows(genes), k) == 0.0
  {
    if genes != [] {
      GeneFlowsFromTags(genes[1..], k);
      assert GeneFlows(genes)[1..] == GeneFlows(genes[1..]);
    }
  }

  /** In the aggregated flows, the edge from a lipid class (other than a direction tag) to a
      direction weighs the number of significant lipids of that class and direction. */
  lemma LipidEdgeWeight(lipids: seq<Hit>, genes: seq<Hit>, cls: string, d: Direction)
    requires cls != UpLabel && cls != DownLabel
    ensures SumFor(Aggregate(EmittedFlows(lipids, genes)), Key(cls, DirectionLabel(d))) == |LipidsOf(lipids, cls, d)| as real
  {
    var k := Key(cls, DirectionLabel(d));
    SumForAppend(LipidFlows(lipids), GeneFlows(genes), k);
    LipidEdgeCounts(lipids, cls, d);
    GeneFlowsFromTags(genes, k);
  }

  // ---------------------------------------------------------------------------
  // Nodes

  /** The position of the first occurrence of `x` in `s`. */
  function FirstIndex(s: seq<string>, x: string): (p: nat)
    requires x in s
    ensures p < |s| && s[p] == x
    ensures forall j :: 0 <= j < p ==> s[j] != x
  {
    if s[0] == x then 0 else 1 + FirstIndex(s[1..], x)
  }

  /** Appending an element leaves earlier first occurrences where they were. */
  lemma FirstIndexAppend(s: seq<string>, x: string)
    ensures forall y :: y in s ==> FirstIndex(s + [x], y) == FirstIndex(s, y)
    ensures x !in s ==> FirstIndex(s + [x], x) == |s|
  {
    forall y | y in s ensures FirstIndex(s + [x], y) == FirstIndex(s, y) {
      var p := FirstIndex(s, y);
      assert (s + [x])[p] == y;
    }
  }

  /** The distinct elements of `s` in order of first appearance. */
  function Dedup(s: seq<string>): (r: seq<string>)
    ensures NoDup(r)
    ensures forall x :: x in r <==> x in s
    ensures forall i, j :: 0 <= i < j < |r| ==> FirstIndex(s, r[i]) < FirstIndex(s, r[j])
  {
    if s == [] then []
    else
      var init := s[..|s| - 1];
      var x := s[|s| - 1];
      var d := Dedup(init);
      assert s == init + [x];
      FirstIndexAppend(init, x);
      if x in d then d
      else
        var r := d + [x];
        assert forall i :: 0 <= i < |d| ==> r[i] == d[i];
        r
  }

  /** Deduplication leaves a sequence without repeats as it is. */
  lemma {:induction false} DedupDistinct(s: seq<string>)
    requires NoDup(s)
    ensures Dedup(s) == s
  {
    if s != [] {
      var init := s[..|s| - 1];
      var x := s[|s| - 1];
      assert NoDup(init);
      DedupDistinct(init);
      assert s == init + [x];
      assert x !in init;
    }
  }

  /** The source labels of the aggregated edges, in edge order. */
  function Sources(agg: seq<Flow>): (r: seq<string>)
    ensures |r| == |agg| && forall i :: 0 <= i < |agg| ==> r[i] == agg[i].source
  {
    seq(|agg|, i requires 0 <= i < |agg| => agg[i].source)
  }

  /** The target labels of the aggregated edges, in edge order. */
  function Targets(agg: seq<Flow>): (r: seq<string>)
    ensures |r| == |agg| && forall i :: 0 <= i < |agg| ==> r[i] == agg[i].target
  {
    seq(|agg|, i requires 0 <= i < |agg| => agg[i].target)
  }

  /** The node labels (line 109 of the application): the distinct labels of all sources,
      then of all targets, in order of first appearance. */
  function NodeLabels(agg: seq<Flow>): (nodes: seq<string>)
    ensures NoDup(nodes)
    ensures forall x :: x in nodes <==> exists i :: 0 <= i < |agg| && (agg[i].source == x || agg[i].target == x)
  {
    var nodes := Dedup(Sources(agg) + Targets(agg));
    forall x ensures x in nodes <==> exists i :: 0 <= i < |agg| && (agg[i].source == x || agg[i].target == x) {
      EndpointMember(agg, x);
    }
    nodes
  }

  /** A label occurs among the sources and targets exactly when some edge has it as an endpoint. */
  lemma EndpointMember(agg: seq<Flow>, x: string)
    ensures x in Sources(agg) + Targets(agg) <==> exists i :: 0 <= i < |agg| && (agg[i].source == x || agg[i].target == x)
  {
    var all := Sources(agg) + Targets(agg);
    if x in all {
      var p :| 0 <= p < |all| && all[p] == x;
      if p < |agg| {
        assert agg[p].source == x;
      } else {
        assert agg[p - |agg|].target == x;
      }
    }
    if exists i :: 0 <= i < |agg| && (agg[i].source == x || agg[i].target == x) {
      var i :| 0 <= i < |agg| && (agg[i].source == x || agg[i].target == x);
      if agg[i].source == x {
        assert all[i] == x;
      } else {
        assert all[|agg| + i] == x;
      }
    }
  }

  /** Every source label comes before every label that is only a target. */
  lemma SourcesFirst(agg: seq<Flow>)
    ensures forall i, j ::
      (0 <= i < |NodeLabels(agg)| && 0 <= j < |NodeLabels(agg)| &&
       NodeLabels(agg)[i] in Sources(agg) && NodeLabels(agg)[j] !in Sources(agg)) ==> i < j
  {
    var all := Sources(agg) + Targets(agg);
    var nodes := NodeLabels(agg);
    forall i, j | 0 <= i < |nodes| && 0 <= j < |nodes| && nodes[i] in Sources(agg) && nodes[j] !in Sources(agg)
      ensures i < j
    {
      var p := FirstIndex(all, nodes[i]);
      var q := FirstIndex(all, nodes[j]);
      assert p < |agg| by {
        var m :| 0 <= m < |agg| && Sources(agg)[m] == nodes[i];
        assert all[m] == nodes[i];
      }
      assert q >= |agg|;
    }
  }

  /** The label-to-index dictionary (line 110 of the application): each label maps to its
      position, a later position overwriting an earlier one for a repeated label. */
  function IndexMap(nodes: seq<string>): (m: map<string, nat>)
    ensures forall x :: x in m <==> x in nodes
    ensures forall x :: x in m ==> m[x] < |nodes| && nodes[m[x]] == x
    ensures NoDup(nodes) ==> forall i :: 0 <= i < |nodes| ==> m[nodes[i]] == i
  {
    if nodes == [] then map[]
    else
      var init := nodes[..|nodes| - 1];
      var m := IndexMap(init);
      assert nodes == init + [nodes[|nodes| - 1]];
      m[nodes[|nodes| - 1] := |nodes| - 1]
  }

  /** One edge of the indexed edge list. */
  datatype Link = Link(sourceIndex: nat, targetIndex: nat, value: real)

  /** Adds the source and target indices to every aggregated edge (lines 112-113 of the application). */
  method IndexEdges(agg: seq<Flow>, index: map<string, nat>) returns (links: seq<Link>)
    requires forall i :: 0 <= i < |agg| ==> agg[i].source in index && agg[i].target in index
    ensures |links| == |agg|
    ensures forall i :: 0 <= i < |agg| ==>
      links[i] == Link(index[agg[i].source], index[agg[i].target], agg[i].value)
  {
    links := [];
    for i := 0 to |agg|
      invariant |links| == i
      invariant forall j :: 0 <= j < i ==> links[j] == Link(index[agg[j].source], index[agg[j].target], agg[j].value)
    {
      links := links + [Link(index[agg[i].source], index[agg[i].target], agg[i].value)];
    }
  }

  // ---------------------------------------------------------------------------
  // Colours

  datatype Color = WarmRed | CoolBlue | Orange | Green | Purple | NeutralGray

  /** Whether `sub` occurs in `s` as a contiguous piece. */
  predicate Contains(s: string, sub: string)
  {
    sub <= s || (s != [] && Contains(s[1..], sub))
  }

  lemma {:induction false} ContainsFrom(s: string, sub: string, i: nat)
    requires i <= |s| && sub <= s[i..]
    ensures Contains(s, sub)
  {
    if i == 0 {
      assert s[i..] == s;
    } else {
      assert s[1..][i - 1..] == s[i..];
      ContainsFrom(s[1..], sub, i - 1);
    }
  }

  lemma {:induction false} ContainsWitness(s: string, sub: string) returns (i: nat)
    requires Contains(s, sub)
    ensures i <= |s| && sub <= s[i..]
  {
    if sub <= s {
      i := 0;
      assert s[i..] == s;
    } else {
      var j := ContainsWitness(s[1..], sub);
      i := j + 1;
      assert s[1..][j..] == s[i..];
    }
  }

  /** `Contains` holds exactly when `sub` is a prefix of some suffix of `s`. */
  lemma ContainsAt(s: string, sub: string)
    ensures Contains(s, sub) <==> exists i :: 0 <= i <= |s| && sub <= s[i..]
  {
    if Contains(s, sub) {
      var i := ContainsWitness(s, sub);
    }
    if exists i :: 0 <= i <= |s| && sub <= s[i..] {
      var i :| 0 <= i <= |s| && sub <= s[i..];
      ContainsFrom(s, sub, i);
    }
  }

  /** A piece whose first character never occurs in `s` is not contained in `s`. */
  lemma {:induction false} ContainsNeedsFirst(s: string, sub: string)
    requires sub != [] && sub[0] !in s
    ensures !Contains(s, sub)
  {
    if s != [] {
      assert s[0] != sub[0];
      assert forall c :: c in s[1..] ==> c in s;
      ContainsNeedsFirst(s[1..], sub);
    }
  }

  /** One test of the colour table. */
  datatype Test = HasText(sub: string) | OneOf(labels: seq<string>)

  datatype Rule = Rule(test: Test, color: Color)

  predicate Matches(t: Test, name: string)
  {
    match t
    case HasText(sub) => Contains(name, sub)
    case OneOf(labels) => name in labels
  }

  /** The colour table, in the order its rules are tried. */
  const Palette: seq<Rule> := [
    Rule(HasText("Upregulated"), WarmRed),
    Rule(HasText("Downregulated"), CoolBlue),
    Rule(OneOf(["PC", "LPC", "PE", "LPE"]), Orange),
    Rule(OneOf(["DG", "TG"]), Green),
    Rule(OneOf(["SM", "CAR"]), Purple)
  ]

  /** The colour of the first rule that matches, or `fallback` when none does. */
  function FirstMatch(rules: seq<Rule>, name: string, fallback: Color): Color
  {
    if rules == [] then fallback
    else if Matches(rules[0].test, name) then rules[0].color
    else FirstMatch(rules[1..], name, fallback)
  }

  /** The first matching rule decides the colour; with no matching rule the fallback is used. */
  lemma {:induction false} FirstMatchDecides(rules: seq<Rule>, name: string, fallback: Color)
    ensures (forall i :: 0 <= i < |rules| ==> !Matches(rules[i].test, name)) ==>
      FirstMatch(rules, name, fallback) == fallback
    ensures forall i ::
      (0 <= i < |rules| && Matches(rules[i].test, name) &&
       forall j :: 0 <= j < i ==> !Matches(rules[j].test, name)) ==> FirstMatch(rules, name, fallback) == rules[i].color
  {
    if rules != [] && !Matches(rules[0].test, name) {
      assert forall i :: 1 <= i < |rules| ==> rules[i] == rules[1..][i - 1];
      FirstMatchDecides(rules[1..], name, fallback);
    }
  }

  /** The colour table read as a chain of tests: the first that passes decides. */
  lemma PaletteChain(name: string)
    ensures FirstMatch(Palette, name, NeutralGray) ==
      if Contains(name, "Upregulated") then WarmRed
      else if Contains(name, "Downregulated") then CoolBlue
      else if name in ["PC", "LPC", "PE", "LPE"] then Orange
      else if name in ["DG", "TG"] then Green
      else if name in ["SM", "CAR"] then Purple
      else NeutralGray
  {
    assert Palette[0] == Rule(HasText("Upregulated"), WarmRed);
    assert Palette[1] == Rule(HasText("Downregulated"), CoolBlue);
    assert Palette[2] == Rule(OneOf(["PC", "LPC", "PE", "LPE"]), Orange);
    assert Palette[3] == Rule(OneOf(["DG", "TG"]), Green);
    assert Palette[4] == Rule(OneOf(["SM", "CAR"]), Purple);
    FirstMatchDecides(Palette, name, NeutralGray);
  }

  /** The colour the table gives a node label, gray when no rule matches. */
  function TableColor(name: string): Color
  {
    FirstMatch(Palette, name, NeutralGray)
  }

  /** The colour of one node: the tests of the table tried in order (lines 118-129 of the application). */
  method ColorOf(node: string) returns (c: Color)
    ensures c == TableColor(node)
  {
    if Contains(node, "Upregulated") {
      c := WarmRed;
    } else if Contains(node, "Downregulated") {
      c := CoolBlue;
    } else if node in ["PC", "LPC", "PE", "LPE"] {
      c := Orange;
    } else if node in ["DG", "TG"] {
      c := Green;
    } else if node in ["SM", "CAR"] {
      c := Purple;
    } else {
      c := NeutralGray;
    }
    PaletteChain(node);
  }

  /** The colour list (lines 116-129 of the application): one colour per node, chosen by
      the first rule of the table that matches, gray when none does. */
  method NodeColors(nodes: seq<string>) returns (colors: seq<Color>)
    ensures |colors| == |nodes|
    ensures forall i :: 0 <= i < |nodes| ==> colors[i] == TableColor(nodes[i])
  {
    colors := [];
    for i := 0 to |nodes|
      invariant |colors| == i
      invariant forall j :: 0 <= j < i ==> colors[j] == TableColor(nodes[j])
    {
      var c := ColorOf(nodes[i]);
      var next := colors + [c];
      assert forall j :: 0 <= j < i ==> next[j] == colors[j];
      colors := next;
    }
  }
}
