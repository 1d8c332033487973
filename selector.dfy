/** Stage 3, the significance and ranking selector: the magnitude filter,
    the strict-sign direction tag, the top-N split of genes and the summary counts. */
module Selector {
  import opened Common
  import opened FoldChange

  /** A row that passed the magnitude filter; its fold change is defined. */
  datatype Hit = Hit(id: string, fc: real)

  datatype Direction = Up | Down

  /** The direction tag: up only for a strictly positive fold change, so zero is down. */
  function DirectionOf(fc: real): (d: Direction)
    ensures d == Up <==> fc > 0.0
    ensures fc == 0.0 ==> d == Down
  {
    if fc > 0.0 then Up else Down
  }

  /** The magnitude test of one row; an undefined fold change never passes. */
  predicate Passes(r: Scored, t: real)
  {
    r.fc.Some? && Abs(r.fc.value) > t
  }

  /** The rows whose fold change is defined and strictly larger than `t` in magnitude, in input order. */
  function Significant(rows: seq<Scored>, t: real): (hits: seq<Hit>)
    ensures |hits| <= |rows|
    ensures forall i :: 0 <= i < |hits| ==> Abs(hits[i].fc) > t
  {
    if rows == [] then []
    else (if Passes(rows[0], t) then [Hit(rows[0].id, rows[0].fc.value)] else []) + Significant(rows[1..], t)
  }

  /** The filter works row by row over a concatenation, so it keeps input order. */
  lemma {:induction false} SignificantAppend(a: seq<Scored>, b: seq<Scored>, t: real)
    ensures Significant(a + b, t) == Significant(a, t) + Significant(b, t)
  {
    if a == [] {
      assert a + b == b;
    } else {
      assert (a + b)[1..] == a[1..] + b;
      SignificantAppend(a[1..], b, t);
    }
  }

  /** The filter returns exactly the rows with a defined fold change above the threshold in magnitude. */
  lemma {:induction false} SignificantExact(rows: seq<Scored>, t: real)
    ensures forall h :: h in Significant(rows, t) <==>
      exists i :: 0 <= i < |rows| && rows[i].id == h.id && rows[i].fc == Some(h.fc) && Abs(h.fc) > t
  {
    if rows != [] {
      SignificantExact(rows[1..], t);
      forall h ensures h in Significant(rows, t) <==>
        exists i :: 0 <= i < |rows| && rows[i].id == h.id && rows[i].fc == Some(h.fc) && Abs(h.fc) > t
      {
        if exists i :: 0 <= i < |rows| && rows[i].id == h.id && rows[i].fc == Some(h.fc) && Abs(h.fc) > t {
          var i :| 0 <= i < |rows| && rows[i].id == h.id && rows[i].fc == Some(h.fc) && Abs(h.fc) > t;
          if i > 0 {
            assert rows[1..][i - 1] == rows[i];
          }
        }
        if h in Significant(rows[1..], t) {
          var i :| 0 <= i < |rows[1..]| && rows[1..][i].id == h.id && rows[1..][i].fc == Some(h.fc) && Abs(h.fc) > t;
          assert rows[i + 1] == rows[1..][i];
        }
      }
    }
  }

  /** Raising the threshold only removes rows: the result at `t2` is the result at `t1`
      filtered again, so it is never larger. */
  lemma {:induction false} SignificantMonotone(rows: seq<Scored>, t1: real, t2: real)
    requires t1 <= t2
    ensures Significant(rows, t2) == Filter(Significant(rows, t1), (h: Hit) => Abs(h.fc) > t2)
    ensures |Significant(rows, t2)| <= |Significant(rows, t1)|
  {
    var q := (h: Hit) => Abs(h.fc) > t2;
    if rows != [] {
      SignificantMonotone(rows[1..], t1, t2);
      var head := if Passes(rows[0], t1) then [Hit(rows[0].id, rows[0].fc.value)] else [];
      FilterAppend(head, Significant(rows[1..], t1), q);
      if Passes(rows[0], t1) {
        assert head[1..] == [];
      }
    }
  }

  /** The up-tagged hits, in order. */
  function Ups(hits: seq<Hit>): (ups: seq<Hit>)
    ensures forall i :: 0 <= i < |ups| ==> ups[i] in hits && ups[i].fc > 0.0
    ensures forall h :: h in hits && h.fc > 0.0 ==> h in ups
  {
    Filter(hits, (h: Hit) => DirectionOf(h.fc) == Up)
  }

  /** The down-tagged hits, in order (a zero fold change is down). */
  function Downs(hits: seq<Hit>): (downs: seq<Hit>)
    ensures forall i :: 0 <= i < |downs| ==> downs[i] in hits && downs[i].fc <= 0.0
    ensures forall h :: h in hits && h.fc <= 0.0 ==> h in downs
  {
    Filter(hits, (h: Hit) => DirectionOf(h.fc) == Down)
  }

  /** Every hit carries exactly one of the two direction tags. */
  lemma DirectionsPartition(hits: seq<Hit>)
    ensures |Ups(hits)| + |Downs(hits)| == |hits|
  {
    FilterSplit(hits, (h: Hit) => DirectionOf(h.fc) == Up, (h: Hit) => DirectionOf(h.fc) == Down);
  }

  /** `i` ranks ahead of `j`: a larger key, or an equal key and an earlier position (first seen wins). */
  predicate Before(v: seq<real>, i: nat, j: nat)
  {
    i < |v| && j < |v| && (v[i] > v[j] || (v[i] == v[j] && i < j))
  }

  /** The candidate that ranks ahead of every other candidate. */
  function Best(v: seq<real>, cand: seq<nat>): (b: nat)
    requires cand != []
    requires forall y :: y in cand ==> y < |v|
    ensures b in cand
    ensures forall y :: y in cand && y != b ==> Before(v, b, y)
  {
    if |cand| == 1 then cand[0]
    else
      assert cand == [cand[0]] + cand[1..];
      assert forall y :: y in cand[1..] ==> y in cand;
      var b := Best(v, cand[1..]);
      if Before(v, cand[0], b) then cand[0] else b
  }

  /** `s` without `x`. */
  function Remove(s: seq<nat>, x: nat): (r: seq<nat>)
    ensures forall y :: y in r <==> y in s && y != x
    ensures x !in s ==> |r| == |s|
    ensures x in s && NoDup(s) ==> |r| == |s| - 1
    ensures NoDup(s) ==> NoDup(r)
  {
    if s == [] then []
    else
      assert s == [s[0]] + s[1..];
      assert NoDup(s) ==> NoDup(s[1..]) && s[0] !in s[1..];
      if s[0] == x then Remove(s[1..], x)
      else
        var rest := Remove(s[1..], x);
        assert forall i :: 1 <= i < |rest| + 1 ==> ([s[0]] + rest)[i] == rest[i - 1];
        [s[0]] + rest
  }

  /** Consecutive positions of `r` are in ranking order. */
  predicate Ranked(v: seq<real>, r: seq<nat>)
  {
    forall i :: 0 <= i < |r| - 1 ==> Before(v, r[i], r[i + 1])
  }

  /** Prepending the best candidate to a ranked choice from the rest keeps it ranked. */
  lemma RankedCons(v: seq<real>, cand: seq<nat>, rest: seq<nat>)
    requires cand != []
    requires forall y :: y in cand ==> y < |v|
    requires Ranked(v, rest)
    requires forall y :: y in rest ==> y in Remove(cand, Best(v, cand))
    ensures Ranked(v, [Best(v, cand)] + rest)
  {
    var r := [Best(v, cand)] + rest;
    forall i | 0 <= i < |r| - 1 ensures Before(v, r[i], r[i + 1]) {
      if i > 0 {
        assert r[i] == rest[i - 1] && r[i + 1] == rest[i];
      } else {
        assert rest[0] in rest;
      }
    }
  }

  /** Every candidate of `cand` left out of `r` ranks behind every member of `r`. */
  predicate Dominates(v: seq<real>, r: seq<nat>, cand: seq<nat>)
  {
    forall x, y :: x in r && y in cand && y !in r ==> Before(v, x, y)
  }

  /** Prepending the best candidate to a dominating choice from the rest keeps it dominating. */
  lemma DominatesCons(v: seq<real>, cand: seq<nat>, rest: seq<nat>)
    requires cand != []
    requires forall y :: y in cand ==> y < |v|
    requires Dominates(v, rest, Remove(cand, Best(v, cand)))
    ensures Dominates(v, [Best(v, cand)] + rest, cand)
  {
    var b := Best(v, cand);
    forall x, y | x in [b] + rest && y in cand && y !in [b] + rest ensures Before(v, x, y) {
      assert y in Remove(cand, b);
      if x != b {
        assert x in rest;
      }
    }
  }

  /** The first `k` candidates in ranking order, chosen one best candidate at a time:
      each ranks ahead of the next, and every candidate left out ranks behind every one chosen. */
  function TopFrom(v: seq<real>, cand: seq<nat>, k: nat): (r: seq<nat>)
    requires forall y :: y in cand ==> y < |v|
    ensures NoDup(cand) ==> |r| == Min(k, |cand|)
    ensures NoDup(r)
    ensures forall y :: y in r ==> y in cand
    ensures Ranked(v, r)
    ensures Dominates(v, r, cand)
    decreases k
  {
    if k == 0 || cand == [] then []
    else
      var b := Best(v, cand);
      var rest := TopFrom(v, Remove(cand, b), k - 1);
      assert b !in rest;
      RankedCons(v, cand, rest);
      DominatesCons(v, cand, rest);
      [b] + rest
  }

  function Range(n: nat): (r: seq<nat>)
    ensures |r| == n && forall i :: 0 <= i < n ==> r[i] == i
  {
    seq(n, i requires 0 <= i < n => i)
  }

  /** The positions of the `k` largest keys, largest first; among equal keys the
      earlier position is taken first (pandas' keep='first'). Every position left
      out ranks behind every position taken. */
  function TopIndices(v: seq<real>, k: nat): (r: seq<nat>)
    ensures |r| == Min(k, |v|)
    ensures NoDup(r)
    ensures forall i :: 0 <= i < |r| ==> r[i] < |v|
    ensures Ranked(v, r)
    ensures forall x, j :: x in r && 0 <= j < |v| && j !in r ==> Before(v, x, j)
  {
    var cand := Range(|v|);
    assert NoDup(cand);
    assert forall y :: y in cand ==> y < |v|;
    assert forall j :: 0 <= j < |v| ==> j in cand by {
      forall j | 0 <= j < |v| ensures j in cand {
        assert cand[j] == j;
      }
    }
    var r := TopFrom(v, cand, k);
    assert forall i :: 0 <= i < |r| ==> r[i] < |v| by {
      forall i | 0 <= i < |r| ensures r[i] < |v| {
        assert r[i] in cand;
      }
    }
    r
  }

  function Keys(hits: seq<Hit>): (v: seq<real>)
    ensures |v| == |hits| && forall i :: 0 <= i < |hits| ==> v[i] == hits[i].fc
  {
    seq(|hits|, i requires 0 <= i < |hits| => hits[i].fc)
  }

  function NegatedKeys(hits: seq<Hit>): (v: seq<real>)
    ensures |v| == |hits| && forall i :: 0 <= i < |hits| ==> v[i] == -hits[i].fc
  {
    seq(|hits|, i requires 0 <= i < |hits| => -hits[i].fc)
  }

  function Pick(hits: seq<Hit>, idx: seq<nat>): (r: seq<Hit>)
    requires forall i :: 0 <= i < |idx| ==> idx[i] < |hits|
    ensures |r| == |idx| && forall i :: 0 <= i < |idx| ==> r[i] == hits[idx[i]]
  {
    seq(|idx|, i requires 0 <= i < |idx| => hits[idx[i]])
  }

  /** `top` holds the hits at the distinct positions `idx`, which are in ranking order by the
      keys `v`, and every position left out ranks behind every position taken. */
  predicate TakenAt(hits: seq<Hit>, v: seq<real>, idx: seq<nat>, top: seq<Hit>)
  {
    && |v| == |hits|
    && |idx| == |top|
    && NoDup(idx)
    && (forall i :: 0 <= i < |idx| ==> idx[i] < |hits| && top[i] == hits[idx[i]])
    && Ranked(v, idx)
    && (forall x, j :: x in idx && 0 <= j < |hits| && j !in idx ==> Before(v, x, j))
  }

  /** A hit whose position is not taken ranks behind every position taken, so its key is no larger. */
  lemma LeftOutBehind(hits: seq<Hit>, v: seq<real>, idx: seq<nat>)
    requires |v| == |hits|
    requires forall p :: 0 <= p < |idx| ==> idx[p] < |hits|
    requires forall x, j :: x in idx && 0 <= j < |v| && j !in idx ==> Before(v, x, j)
    ensures forall i, j :: 0 <= i < |idx| && 0 <= j < |hits| && hits[j] !in Pick(hits, idx) ==> v[j] <= v[idx[i]]
  {
    var top := Pick(hits, idx);
    assert forall p :: 0 <= p < |idx| ==> hits[idx[p]] in top by {
      forall p | 0 <= p < |idx| ensures hits[idx[p]] in top {
        assert top[p] == hits[idx[p]];
      }
    }
    forall i, j | 0 <= i < |idx| && 0 <= j < |hits| && hits[j] !in top ensures v[j] <= v[idx[i]] {
      assert j !in idx;
      assert idx[i] in idx;
    }
  }

  /** `nlargest(k)` by fold change: the hits at the top positions of the fold change.
      No hit left out has a larger fold change than any hit taken. */
  function NLargest(hits: seq<Hit>, k: nat): (top: seq<Hit>)
    ensures |top| == Min(k, |hits|)
    ensures forall i :: 0 <= i < |top| ==> top[i] in hits
    ensures forall i :: 0 <= i < |top| - 1 ==> top[i].fc >= top[i + 1].fc
    ensures forall i, h :: 0 <= i < |top| && h in hits && h !in top ==> h.fc <= top[i].fc
    ensures exists idx :: TakenAt(hits, Keys(hits), idx, top)
  {
    var v := Keys(hits);
    var idx := TopIndices(v, k);
    var top := Pick(hits, idx);
    assert TakenAt(hits, v, idx, top);
    LeftOutBehind(hits, v, idx);
    forall i, h | 0 <= i < |top| && h in hits && h !in top ensures h.fc <= top[i].fc {
      var j :| 0 <= j < |hits| && hits[j] == h;
    }
    top
  }

  /** `nsmallest(k)` by fold change: the hits at the top positions of the negated fold change.
      No hit left out has a smaller fold change than any hit taken. */
  function NSmallest(hits: seq<Hit>, k: nat): (top: seq<Hit>)
    ensures |top| == Min(k, |hits|)
    ensures forall i :: 0 <= i < |top| ==> top[i] in hits
    ensures forall i :: 0 <= i < |top| - 1 ==> top[i].fc <= top[i + 1].fc
    ensures forall i, h :: 0 <= i < |top| && h in hits && h !in top ==> h.fc >= top[i].fc
    ensures exists idx :: TakenAt(hits, NegatedKeys(hits), idx, top)
  {
    var v := NegatedKeys(hits);
    var idx := TopIndices(v, k);
    var top := Pick(hits, idx);
    assert TakenAt(hits, v, idx, top);
    LeftOutBehind(hits, v, idx);
    forall i, h | 0 <= i < |top| && h in hits && h !in top ensures h.fc >= top[i].fc {
      var j :| 0 <= j < |hits| && hits[j] == h;
    }
    top
  }

  /** The top genes: `n / 2` up hits by largest fold change, then `n / 2` down
      hits by smallest fold change. */
  function TopGenes(sig: seq<Hit>, n: nat): (top: seq<Hit>)
    ensures |top| == Min(n / 2, |Ups(sig)|) + Min(n / 2, |Downs(sig)|)
    ensures |top| <= n
    ensures n % 2 == 1 ==> |top| <= n - 1
    ensures forall i :: 0 <= i < |top| ==> top[i] in sig
    ensures forall i :: 0 <= i < Min(n / 2, |Ups(sig)|) ==> top[i].fc > 0.0
    ensures forall i :: Min(n / 2, |Ups(sig)|) <= i < |top| ==> top[i].fc <= 0.0
  {
    NLargest(Ups(sig), n / 2) + NSmallest(Downs(sig), n / 2)
  }

  /** The eight counts of the analysis summary. */
  datatype Summary = Summary(
    totalGenes: nat, significantGenes: nat, genesUp: nat, genesDown: nat,
    totalLipids: nat, significantLipids: nat, lipidsUp: nat, lipidsDown: nat)

  /** Hits with a strictly positive fold change. */
  function CountUp(hits: seq<Hit>): (n: nat)
    ensures n <= |hits|
    ensures n == 0 <==> forall i :: 0 <= i < |hits| ==> hits[i].fc <= 0.0
  {
    var kept := Filter(hits, (h: Hit) => h.fc > 0.0);
    assert |kept| > 0 ==> kept[0] in hits && kept[0].fc > 0.0;
    |kept|
  }

  /** Hits with a strictly negative fold change. */
  function CountDown(hits: seq<Hit>): (n: nat)
    ensures n <= |hits|
    ensures n == 0 <==> forall i :: 0 <= i < |hits| ==> hits[i].fc >= 0.0
  {
    var kept := Filter(hits, (h: Hit) => h.fc < 0.0);
    assert |kept| > 0 ==> kept[0] in hits && kept[0].fc < 0.0;
    |kept|
  }

  /** The summary counts agree with the direction tags, except that a zero fold
      change is tagged down yet counted in neither direction. */
  lemma {:induction false} CountsPartition(hits: seq<Hit>)
    ensures CountUp(hits) == |Ups(hits)|
    ensures CountDown(hits) <= |Downs(hits)|
    ensures CountUp(hits) + CountDown(hits) <= |hits|
    ensures (forall i :: 0 <= i < |hits| ==> hits[i].fc != 0.0) ==> CountUp(hits) + CountDown(hits) == |hits|
  {
    var isUp := (h: Hit) => DirectionOf(h.fc) == Up;
    var isDown := (h: Hit) => DirectionOf(h.fc) == Down;
    var pos := (h: Hit) => h.fc > 0.0;
    var neg := (h: Hit) => h.fc < 0.0;
    FilterSame(hits, pos, isUp);
    FilterNarrow(hits, isDown, neg);
    DirectionsPartition(hits);
    if forall i :: 0 <= i < |hits| ==> hits[i].fc != 0.0 {
      FilterSame(hits, isDown, neg);
    }
  }

  /** The summary of both datasets (lines 158-167 of the application). */
  function Summarize(genes: seq<Scored>, sigGenes: seq<Hit>, lipids: seq<Scored>, sigLipids: seq<Hit>): (s: Summary)
    ensures s.genesUp + s.genesDown <= s.significantGenes
    ensures s.lipidsUp + s.lipidsDown <= s.significantLipids
  {
    CountsPartition(sigGenes);
    CountsPartition(sigLipids);
    Summary(|genes|, |sigGenes|, CountUp(sigGenes), CountDown(sigGenes),
            |lipids|, |sigLipids|, CountUp(sigLipids), CountDown(sigLipids))
  }

  /** With a non-negative threshold no significant row has a zero fold change, so
      the up and down counts add up to the significant count. */
  lemma SummaryCountsExact(rows: seq<Scored>, t: real)
    requires t >= 0.0
    ensures CountUp(Significant(rows, t)) + CountDown(Significant(rows, t)) == |Significant(rows, t)|
  {
    CountsPartition(Significant(rows, t));
  }
}
