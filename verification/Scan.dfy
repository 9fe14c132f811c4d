/** The exhaustive origin scan (src/index/scan.rs): split boundaries and the ranges between
    them. */
module Scan {
  import opened Base
  import opened Ordered

  // ----- boundaries -----

  function RangeCount(prefixes: seq<Text>, workers: nat): nat {
    if workers < |prefixes| + 1 then workers else |prefixes| + 1
  }

  lemma SlotInside(part: nat, n: nat, count: nat)
    requires 0 < part < count <= n + 1
    ensures part * n / count < n
  {
    assert part * n <= (count - 1) * n == count * n - n;
    assert n > 0;
    DivideBelow(part * n, n, count);
  }

  lemma DivideBelow(x: nat, n: nat, count: nat)
    requires count > 0 && x < count * n
    ensures x / count < n
  {
    var q := x / count;
    assert x == count * q + x % count;
    if n <= q { MultiplyUp(count, n, q); }
  }

  lemma MultiplyUp(c: nat, a: nat, b: nat)
    requires a <= b
    ensures c * a <= c * b
  {}

  /** Consecutive slots never coincide: either every step is at least one whole slot, or
      there is one boundary for each prefix. */
  lemma SlotsRise(part: nat, n: nat, count: nat)
    requires 0 < part && part + 1 < count <= n + 1
    ensures part * n / count < (part + 1) * n / count
  {
    if count <= n {
      assert (part + 1) * n == part * n + n;
      assert (part * n + n) / count >= (part * n + count) / count == part * n / count + 1 by {
        Shifted(part * n, count);
        DivideUp(part * n + count, part * n + n, count);
      }
    } else {
      ExactSlot(part, n);
      ExactSlot(part + 1, n);
    }
  }

  lemma Shifted(x: nat, count: nat)
    requires count > 0
    ensures (x + count) / count == x / count + 1
  {
    var (q, r) := (x / count, x % count);
    assert x == q * count + r;
    assert x + count == (q + 1) * count + r;
    QuotientIs(x + count, q + 1, count, r);
  }

  lemma DivideUp(x: nat, y: nat, count: nat)
    requires count > 0 && x <= y
    ensures x / count <= y / count
  {
    if x / count > y / count {
      MultiplyUp(count, y / count + 1, x / count);
    }
  }

  lemma ExactSlot(part: nat, n: nat)
    requires 0 < part <= n
    ensures part * n / (n + 1) == part - 1
  {
    assert part * n == (part - 1) * (n + 1) + (n + 1 - part);
    QuotientIs(part * n, part - 1, n + 1, n + 1 - part);
  }

  lemma QuotientIs(x: nat, q: nat, d: nat, r: nat)
    requires d > 0 && r < d && x == q * d + r
    ensures x / d == q
  {
    if x / d < q {
      MultiplyUp(d, x / d + 1, q);
    } else if x / d > q {
      MultiplyUp(d, q + 1, x / d);
    }
  }

  function Slot(prefixes: seq<Text>, workers: nat, part: nat): (i: nat)
    requires 0 < part < RangeCount(prefixes, workers)
    ensures i < |prefixes|
  {
    SlotInside(part, |prefixes|, RangeCount(prefixes, workers));
    part * |prefixes| / RangeCount(prefixes, workers)
  }

  function ChooseBoundaries(prefixes: seq<Text>, workers: nat): seq<Text>
    requires workers > 0
  {
    seq(RangeCount(prefixes, workers) - 1,
        i requires 0 <= i < RangeCount(prefixes, workers) - 1 => prefixes[Slot(prefixes, workers, i + 1)])
  }

  lemma {:induction false} SlotsAscend(prefixes: seq<Text>, workers: nat, i: nat, j: nat)
    requires 0 < i < j < RangeCount(prefixes, workers)
    ensures Slot(prefixes, workers, i) < Slot(prefixes, workers, j)
    decreases j
  {
    SlotsRise(j - 1, |prefixes|, RangeCount(prefixes, workers));
    if i < j - 1 { SlotsAscend(prefixes, workers, i, j - 1); }
  }

  /** From any sorted duplicate-free prefixes and any number of workers the boundaries come
      out strictly increasing. */
  lemma BoundariesAscend(prefixes: seq<Text>, workers: nat)
    requires Ascending(prefixes) && workers > 0
    ensures Ascending(ChooseBoundaries(prefixes, workers))
    ensures |ChooseBoundaries(prefixes, workers)| + 1 == RangeCount(prefixes, workers)
  {
    hide Slot, Less, Utf8;
    var b := ChooseBoundaries(prefixes, workers);
    forall i, j | 0 <= i < j < |b| ensures Less(b[i], b[j]) {
      SlotsAscend(prefixes, workers, i + 1, j + 1);
    }
  }

  // ----- ranges -----

  datatype KeyRange = KeyRange(lower: Option<Text>, upper: Option<Text>)

  predicate Above(k: Text, lower: Option<Text>) { lower.None? || Less(lower.value, k) }

  predicate Below(k: Text, upper: Option<Text>) { upper.None? || AtMost(k, upper.value) }

  predicate Inside(k: Text, r: KeyRange) { Above(k, r.lower) && Below(k, r.upper) }

  /** The range before the `i`-th boundary, and the last one past them all. */
  function RangeAt(boundaries: seq<Text>, i: nat): KeyRange
    requires i <= |boundaries|
  {
    KeyRange(if i == 0 then None else Some(boundaries[i - 1]), if i == |boundaries| then None else Some(boundaries[i]))
  }

  method Ranges(boundaries: seq<Text>) returns (result: seq<KeyRange>)
    ensures |result| == |boundaries| + 1
    ensures forall i :: 0 <= i < |result| ==> result[i] == RangeAt(boundaries, i)
  {
    result := [];
    var lower: Option<Text> := None;
    for i := 0 to |boundaries|
      invariant |result| == i && lower == (if i == 0 then None else Some(boundaries[i - 1]))
      invariant forall j :: 0 <= j < i ==> result[j] == RangeAt(boundaries, j)
    {
      result := result + [KeyRange(lower, Some(boundaries[i]))];
      lower := Some(boundaries[i]);
    }
    result := result + [KeyRange(lower, None)];
  }

  /** The first boundary at or past the key. */
  function Home(boundaries: seq<Text>, k: Text, from: nat): (i: nat)
    requires from <= |boundaries|
    ensures from <= i <= |boundaries|
    decreases |boundaries| - from
  {
    if from == |boundaries| || AtMost(k, boundaries[from]) then from else Home(boundaries, k, from + 1)
  }

  lemma {:induction false} HomeIs(boundaries: seq<Text>, k: Text, from: nat)
    requires from <= |boundaries|
    ensures var i := Home(boundaries, k, from);
      (i < |boundaries| ==> AtMost(k, boundaries[i])) && forall j :: from <= j < i ==> Less(boundaries[j], k)
    decreases |boundaries| - from
  {
    hide Less, Utf8;
    if from < |boundaries| && !AtMost(k, boundaries[from]) {
      LessTotal(k, boundaries[from]);
      HomeIs(boundaries, k, from + 1);
    }
  }

  /** Every key belongs to exactly one range. */
  lemma RangesPartition(boundaries: seq<Text>, k: Text, i: nat)
    requires Ascending(boundaries) && i <= |boundaries|
    ensures Inside(k, RangeAt(boundaries, i)) <==> i == Home(boundaries, k, 0)
  {
    hide Less, Utf8;
    HomeIs(boundaries, k, 0);
    var home := Home(boundaries, k, 0);
    if i < home {
      if AtMost(k, boundaries[i]) { Beyond(boundaries[i], k); }
    } else if i > home {
      LowerSide(boundaries, k, home, i - 1);
    }
  }

  lemma Beyond(a: Text, k: Text)
    requires Less(a, k)
    ensures !AtMost(k, a)
  {
    LessAsymmetric(a, k);
  }

  lemma LowerSide(boundaries: seq<Text>, k: Text, i: nat, j: nat)
    requires Ascending(boundaries) && i <= j < |boundaries| && AtMost(k, boundaries[i])
    ensures !Less(boundaries[j], k)
  {
    if Less(k, boundaries[i]) && i < j { LessTransitive(k, boundaries[i], boundaries[j]); }
    if AtMost(k, boundaries[j]) {
      LessIrreflexive(k);
      if Less(k, boundaries[j]) { LessAsymmetric(k, boundaries[j]); }
    }
  }
}
