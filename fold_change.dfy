/** Stage 2, the fold-change computer: coerces sample cells to numbers,
    averages each condition over its present values and takes the log2
    fold change of White over Beige with a pseudocount of one. */
module FoldChange {
  import opened Common
  import opened Loader

  /** Numeric coercion of one cell. Text is handed to `parse`, which stands
      for pandas' number parser; text it rejects becomes `Missing`, never zero. */
  function Coerce(c: Cell, parse: string -> Option<real>): (r: Cell)
    ensures !r.Text?
    ensures !c.Text? ==> r == c
    ensures c.Text? && parse(c.text).None? ==> r == Missing
    ensures c.Text? && parse(c.text).Some? ==> r == Num(parse(c.text).value)
  {
    match c
    case Missing => Missing
    case Num(_) => c
    case Text(s) => if parse(s).Some? then Num(parse(s).value) else Missing
  }

  /** Coercing an already coerced cell changes nothing, so a column coerced twice is coerced once. */
  lemma CoerceIdempotent(c: Cell, parse: string -> Option<real>)
    ensures Coerce(Coerce(c, parse), parse) == Coerce(c, parse)
  {
  }

  /** One column assignment: column `col` of every record is replaced by its coerced value. */
  function CoerceColumn(recs: seq<Record>, col: string, parse: string -> Option<real>): (out: seq<Record>)
    ensures |out| == |recs|
    ensures forall i :: 0 <= i < |recs| ==> out[i].id == recs[i].id
    ensures forall i, c :: 0 <= i < |recs| ==>
      Get(out[i].cells, c) == if c == col then Coerce(Get(recs[i].cells, c), parse) else Get(recs[i].cells, c)
  {
    seq(|recs|, i requires 0 <= i < |recs| =>
      recs[i].(cells := recs[i].cells[col := Coerce(Get(recs[i].cells, col), parse)]))
  }

  /** The records after the columns `cols` have been coerced one after the other:
      every listed column holds its coerced cell, everything else is as it was. */
  function CoerceAll(recs: seq<Record>, cols: seq<string>, parse: string -> Option<real>): (out: seq<Record>)
    ensures |out| == |recs|
    ensures forall i :: 0 <= i < |recs| ==> out[i].id == recs[i].id
    ensures forall i, c :: 0 <= i < |recs| ==>
      Get(out[i].cells, c) == if c in cols then Coerce(Get(recs[i].cells, c), parse) else Get(recs[i].cells, c)
  {
    if cols == [] then recs
    else
      var init := cols[..|cols| - 1];
      var last := cols[|cols| - 1];
      var prev := CoerceAll(recs, init, parse);
      var out := CoerceColumn(prev, last, parse);
      forall i, c | 0 <= i < |recs|
        ensures Get(out[i].cells, c) == if c in cols then Coerce(Get(recs[i].cells, c), parse) else Get(recs[i].cells, c)
      {
        assert c in cols <==> c in init || c == last by {
          assert cols == init + [last];
        }
        CoerceIdempotent(Get(recs[i].cells, c), parse);
      }
      out
  }

  /** The coercion loop (lines 68-69 and 76-77 of the application): every listed column is
      overwritten, one after the other, by its numeric coercion. */
  method CoerceColumns(recs: seq<Record>, cols: seq<string>, parse: string -> Option<real>) returns (out: seq<Record>)
    ensures out == CoerceAll(recs, cols, parse)
  {
    out := recs;
    for k := 0 to |cols|
      invariant out == CoerceAll(recs, cols[..k], parse)
    {
      assert cols[..k + 1][..k] == cols[..k];
      out := CoerceColumn(out, cols[k], parse);
    }
    assert cols[..|cols|] == cols;
  }

  /** The cells of one row in the given columns, in column order. */
  function RowValues(r: Row, cols: seq<string>): (cells: seq<Cell>)
    ensures |cells| == |cols|
    ensures forall i :: 0 <= i < |cols| ==> cells[i] == Get(r, cols[i])
  {
    seq(|cols|, i requires 0 <= i < |cols| => Get(r, cols[i]))
  }

  /** The numbers among the cells, in order; missing cells are skipped. */
  function PresentValues(cells: seq<Cell>): (xs: seq<real>)
    ensures |xs| <= |cells|
    ensures xs == [] <==> forall i :: 0 <= i < |cells| ==> !cells[i].Num?
  {
    if cells == [] then []
    else (if cells[0].Num? then [cells[0].value] else []) + PresentValues(cells[1..])
  }

  /** The present values are exactly the numbers of the cells: none is left out and none is invented. */
  lemma {:induction false} PresentValuesExact(cells: seq<Cell>)
    ensures forall i :: 0 <= i < |cells| && cells[i].Num? ==> cells[i].value in PresentValues(cells)
    ensures forall x :: x in PresentValues(cells) ==> Num(x) in cells
  {
    if cells != [] {
      PresentValuesExact(cells[1..]);
      assert forall i :: 1 <= i < |cells| ==> cells[i] == cells[1..][i - 1];
      assert forall c :: c in cells[1..] ==> c in cells;
    }
  }

  function Sum(xs: seq<real>): real
  {
    if xs == [] then 0.0 else xs[0] + Sum(xs[1..])
  }

  /** The row mean over present values; undefined when no value is present. */
  function Mean(cells: seq<Cell>): (m: Option<real>)
    ensures m.None? <==> forall i :: 0 <= i < |cells| ==> !cells[i].Num?
  {
    var xs := PresentValues(cells);
    if xs == [] then None else Some(Sum(xs) / (|xs| as real))
  }

  /** The sum of a concatenation is the sum of the sums of its parts. */
  lemma {:induction false} SumAppend(xs: seq<real>, ys: seq<real>)
    ensures Sum(xs + ys) == Sum(xs) + Sum(ys)
  {
    if xs == [] {
      assert xs + ys == ys;
    } else {
      assert (xs + ys)[1..] == xs[1..] + ys;
      SumAppend(xs[1..], ys);
    }
  }

  /** The mean of one number is that number. */
  lemma MeanSingle(x: real)
    ensures Mean([Num(x)]) == Some(x)
  {
    assert PresentValues([Num(x)]) == [x];
    assert Sum([x]) == x + Sum([]);
  }

  /** How many of the cells are numbers, as a real to weigh a mean by. */
  function Count(cells: seq<Cell>): real
  {
    |PresentValues(cells)| as real
  }

  /** A group of cells without numbers does not change the mean of the cells it is joined to. */
  lemma MeanAppendEmpty(a: seq<Cell>, b: seq<Cell>)
    ensures Mean(a).None? ==> Mean(a + b) == Mean(b)
    ensures Mean(b).None? ==> Mean(a + b) == Mean(a)
  {
    PresentValuesAppend(a, b);
    if PresentValues(a) == [] {
      assert PresentValues(a + b) == PresentValues(b);
    }
    if PresentValues(b) == [] {
      assert PresentValues(a + b) == PresentValues(a);
    }
  }

  /** The mean of two groups of cells, each with numbers, is the average of the groups' means
      weighted by how many numbers each group has. With `MeanSingle` and `MeanAppendEmpty`
      this pins the mean down as the arithmetic mean of the present values. */
  lemma MeanAppend(a: seq<Cell>, b: seq<Cell>)
    requires Mean(a).Some? && Mean(b).Some?
    ensures Mean(a + b) == Some(Weighted(Mean(a).value, Count(a), Mean(b).value, Count(b)))
  {
    var xa, xb := PresentValues(a), PresentValues(b);
    var na, nb := Count(a), Count(b);
    var sa, sb := Sum(xa), Sum(xb);
    assert Mean(a + b) == Some((sa + sb) / (na + nb)) by {
      var xs := PresentValues(a + b);
      PresentValuesAppend(a, b);
      SumAppend(xa, xb);
      assert xs == xa + xb;
      assert Sum(xs) == sa + sb && |xs| as real == na + nb;
    }
    assert Mean(a).value == sa / na && Mean(b).value == sb / nb;
    WeightedSums(Mean(a + b), Mean(a).value, Mean(b).value, sa, sb, na, nb);
  }

  /** The average of two averages `ma` and `mb` weighted by their counts `na` and `nb`. */
  function Weighted(ma: real, na: real, mb: real, nb: real): real
    requires na + nb != 0.0
  {
    (ma * na + mb * nb) / (na + nb)
  }

  /** Scaling each of two averages back by its count recovers the sums. */
  lemma WeightedSums(m: Option<real>, ma: real, mb: real, sa: real, sb: real, na: real, nb: real)
    requires na > 0.0 && nb > 0.0 && ma == sa / na && mb == sb / nb
    requires m == Some((sa + sb) / (na + nb))
    ensures m == Some(Weighted(ma, na, mb, nb))
  {
    assert ma * na == sa;
    assert mb * nb == sb;
    assert Weighted(ma, na, mb, nb) == (sa + sb) / (na + nb);
  }

  lemma {:induction false} PresentValuesAppend(a: seq<Cell>, b: seq<Cell>)
    ensures PresentValues(a + b) == PresentValues(a) + PresentValues(b)
  {
    if a == [] {
      assert a + b == b;
    } else {
      assert (a + b)[0] == a[0];
      assert (a + b)[1..] == a[1..] + b;
      PresentValuesAppend(a[1..], b);
      var head := if a[0].Num? then [a[0].value] else [];
      assert PresentValues(a + b) == head + PresentValues(a[1..] + b);
      assert PresentValues(a) == head + PresentValues(a[1..]);
    }
  }

  /** A missing cell is skipped by the mean, not counted as zero: inserting
      one anywhere leaves the mean unchanged. */
  lemma MeanSkipsMissing(a: seq<Cell>, b: seq<Cell>)
    ensures Mean(a + [Missing] + b) == Mean(a + b)
  {
    PresentValuesAppend(a + [Missing], b);
    PresentValuesAppend(a, [Missing]);
    PresentValuesAppend(a, b);
    assert PresentValues([Missing]) == [];
    assert PresentValues(a + [Missing] + b) == PresentValues(a + b);
  }

  lemma {:induction false} SumBounds(xs: seq<real>, lo: real, hi: real)
    requires forall i :: 0 <= i < |xs| ==> lo <= xs[i] <= hi
    ensures (|xs| as real) * lo <= Sum(xs) <= (|xs| as real) * hi
  {
    if xs != [] {
      SumBounds(xs[1..], lo, hi);
    }
  }

  /** Bounds on the numbers of the cells bound every present value. */
  lemma PresentValuesBounded(cells: seq<Cell>, lo: real, hi: real)
    requires forall i :: 0 <= i < |cells| && cells[i].Num? ==> lo <= cells[i].value <= hi
    ensures forall i :: 0 <= i < |PresentValues(cells)| ==> lo <= PresentValues(cells)[i] <= hi
  {
    var xs := PresentValues(cells);
    PresentValuesExact(cells);
    forall i | 0 <= i < |xs| ensures lo <= xs[i] <= hi {
      assert xs[i] in xs;
      var j :| 0 <= j < |cells| && cells[j] == Num(xs[i]);
    }
  }

  /** The mean lies between any bounds of the present values; in particular
      non-negative abundances give a non-negative mean, and equal values give that value. */
  lemma MeanBounds(cells: seq<Cell>, lo: real, hi: real)
    requires forall i :: 0 <= i < |cells| && cells[i].Num? ==> lo <= cells[i].value <= hi
    ensures Mean(cells).Some? ==> lo <= Mean(cells).value <= hi
  {
    var xs := PresentValues(cells);
    if xs != [] {
      PresentValuesBounded(cells, lo, hi);
      SumBounds(xs, lo, hi);
      QuotientBounds(Sum(xs), |xs| as real, lo, hi);
    }
  }

  /** The sign of a product with a positive factor is the sign of the other factor. */
  lemma ProductSign(a: real, b: real)
    requires a > 0.0
    ensures a * b > 0.0 <==> b > 0.0
    ensures a * b == 0.0 <==> b == 0.0
    ensures a * b < 0.0 <==> b < 0.0
  {
    if b < 0.0 {
      assert a * b < 0.0;
    } else if b > 0.0 {
      assert a * b > 0.0;
    }
  }

  lemma QuotientBounds(s: real, n: real, lo: real, hi: real)
    requires n > 0.0 && n * lo <= s <= n * hi
    ensures lo <= s / n <= hi
  {
    var q := s / n;
    assert q * n == s;
    assert n * (q - lo) == s - n * lo;
    assert n * (hi - q) == n * hi - s;
    ProductSign(n, q - lo);
    ProductSign(n, hi - q);
  }

  /** How a quotient of two positive numbers compares with one. */
  lemma QuotientVersusOne(w: real, b: real)
    requires w > 0.0 && b > 0.0
    ensures w / b > 0.0
    ensures w / b > 1.0 <==> w > b
    ensures w / b < 1.0 <==> w < b
    ensures w / b == 1.0 <==> w == b
  {
    var q := w / b;
    assert b * q == w;
    assert b * (q - 1.0) == w - b;
    ProductSign(b, q);
    ProductSign(b, q - 1.0);
  }

  /** log2((White_Mean + 1) / (Beige_Mean + 1)), with `log2` supplied by the caller.
      Undefined when either mean is undefined, or when the ratio is not a
      positive number (pandas yields NaN or an infinity there). */
  function Log2FC(white: Option<real>, beige: Option<real>, log2: real -> real): (fc: Option<real>)
    ensures white.None? || beige.None? ==> fc.None?
    ensures white.Some? && beige.Some? && white.value > -1.0 && beige.value > -1.0 ==> fc.Some?
    ensures white.Some? && beige.Some? ==>
      (fc.Some? <==> beige.value != -1.0 && (white.value + 1.0) / (beige.value + 1.0) > 0.0)
    ensures fc.Some? ==> fc.value == log2((white.value + 1.0) / (beige.value + 1.0))
  {
    if white.None? || beige.None? || beige.value + 1.0 == 0.0 then None
    else
      var ratio := (white.value + 1.0) / (beige.value + 1.0);
      assert white.value > -1.0 && beige.value > -1.0 ==> ratio > 0.0 by {
        if white.value > -1.0 && beige.value > -1.0 {
          QuotientVersusOne(white.value + 1.0, beige.value + 1.0);
        }
      }
      if ratio <= 0.0 then None else Some(log2(ratio))
  }

  /** What the model needs of `log2`: strictly increasing on positive numbers, with
      log2(1) = 0 and log2(1/2) = -1. */
  ghost predicate Log2Like(log2: real -> real)
  {
    && log2(1.0) == 0.0
    && log2(0.5) == -1.0
    && forall x, y :: 0.0 < x < y ==> log2(x) < log2(y)
  }

  /** The sign of the fold change compares the two means: positive exactly when
      White is higher, zero exactly when they are equal. */
  lemma FoldChangeSign(white: real, beige: real, log2: real -> real)
    requires Log2Like(log2)
    requires white > -1.0 && beige > -1.0
    ensures Log2FC(Some(white), Some(beige), log2).Some?
    ensures var fc := Log2FC(Some(white), Some(beige), log2).value;
      && (fc > 0.0 <==> white > beige)
      && (fc == 0.0 <==> white == beige)
      && (fc < 0.0 <==> white < beige)
  {
    var w, b := white + 1.0, beige + 1.0;
    var ratio := w / b;
    QuotientVersusOne(w, b);
    if white > beige {
      assert log2(1.0) < log2(ratio);
    } else if white < beige {
      assert log2(ratio) < log2(1.0);
    }
  }

  /** One row after the fold-change stage. */
  datatype Scored = Scored(id: string, beigeMean: Option<real>, whiteMean: Option<real>, fc: Option<real>)

  /** Means of both conditions and the fold change of one coerced record. */
  function Score(rec: Record, beigeCols: seq<string>, whiteCols: seq<string>, log2: real -> real): (s: Scored)
    ensures s.id == rec.id
    ensures s.fc.Some? ==> s.beigeMean.Some? && s.whiteMean.Some?
    ensures (forall i :: 0 <= i < |beigeCols| ==> !Get(rec.cells, beigeCols[i]).Num?) ==> s.fc.None?
    ensures (forall i :: 0 <= i < |whiteCols| ==> !Get(rec.cells, whiteCols[i]).Num?) ==> s.fc.None?
  {
    var beige := Mean(RowValues(rec.cells, beigeCols));
    var white := Mean(RowValues(rec.cells, whiteCols));
    Scored(rec.id, beige, white, Log2FC(white, beige, log2))
  }

  /** The fold-change columns of a whole table, row by row. */
  function ScoreAll(recs: seq<Record>, beigeCols: seq<string>, whiteCols: seq<string>, log2: real -> real): (rows: seq<Scored>)
    ensures |rows| == |recs|
    ensures forall i :: 0 <= i < |recs| ==> rows[i] == Score(recs[i], beigeCols, whiteCols, log2)
  {
    seq(|recs|, i requires 0 <= i < |recs| => Score(recs[i], beigeCols, whiteCols, log2))
  }

  /** The lipid class: the text before the first space, or the whole name when it has none. */
  function LipidClass(id: string): (cls: string)
    ensures cls <= id
    ensures ' ' !in cls
    ensures |cls| < |id| ==> id[|cls|] == ' '
  {
    if id == [] || id[0] == ' ' then [] else [id[0]] + LipidClass(id[1..])
  }
}
