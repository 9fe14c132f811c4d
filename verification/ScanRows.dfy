/** The rows of an origin snapshot and how ranges divide them (src/index/scan.rs). */
module ScanRows {
  import opened Base
  import opened Ordered
  import opened Buckets
  import opened Scan

  // ----- the origin -----

  function RowsIn(rows: seq<Listed>, r: KeyRange): seq<Listed> {
    if rows == [] then [] else
      var n := |rows| - 1;
      RowsIn(rows[..n], r) + if Inside(rows[n].key, r) then [rows[n]] else []
  }

  /** One origin LIST response; `next` stands for its opaque continuation token. */
  datatype Response = Response(contents: seq<Listed>, truncated: bool, next: Option<nat>)

  function Flat(t: seq<Response>): seq<Listed> {
    if t == [] then [] else Flat(t[..|t| - 1]) + t[|t| - 1].contents
  }

  /** The responses walk the snapshot from the range's start, and an untruncated one ends it. */
  ghost predicate Honest(rows: seq<Listed>, lower: Option<Text>, t: seq<Response>) {
    var rest := RowsIn(rows, KeyRange(lower, None));
    && (forall i :: 0 <= i <= |t| ==> Flat(t[..i]) <= rest)
    && (forall i :: 0 <= i < |t| && !t[i].truncated ==> Flat(t[..i + 1]) == rest)
  }

  lemma {:induction false} RowsInHeld(rows: seq<Listed>, r: KeyRange, i: nat)
    requires i < |RowsIn(rows, r)|
    ensures exists j :: 0 <= j < |rows| && rows[j] == RowsIn(rows, r)[i]
  {
    hide Less, Utf8, Inside;
    var n := |rows| - 1;
    var done := RowsIn(rows[..n], r);
    if i < |done| {
      RowsInHeld(rows[..n], r, i);
      var j :| 0 <= j < n && rows[..n][j] == done[i];
      assert rows[j] == RowsIn(rows, r)[i];
    } else {
      assert rows[n] == RowsIn(rows, r)[i];
    }
  }

  lemma {:induction false} RowsInRise(rows: seq<Listed>, r: KeyRange)
    requires Rising(rows)
    ensures Rising(RowsIn(rows, r))
  {
    hide Less, Utf8, Inside;
    if rows != [] {
      var n := |rows| - 1;
      RowsInRise(rows[..n], r);
      var done := RowsIn(rows[..n], r);
      forall i | 0 <= i < |done| ensures Less(done[i].key, rows[n].key) {
        RowsInHeld(rows[..n], r, i);
        var j :| 0 <= j < n && rows[..n][j] == done[i];
        assert rows[j] == done[i];
      }
    }
  }

  /** The rows up to the bound are those before the first one past it. */
  lemma {:induction false} CutAtUpper(rows: seq<Listed>, lower: Option<Text>, upper: Option<Text>, n: nat)
    requires var rest := RowsIn(rows, KeyRange(lower, None));
      && Rising(rows) && n <= |rest| && (forall i :: 0 <= i < n ==> Below(rest[i].key, upper))
      && (n < |rest| ==> !Below(rest[n].key, upper))
    ensures RowsIn(rows, KeyRange(lower, upper)) == RowsIn(rows, KeyRange(lower, None))[..n]
  {
    hide Less, Utf8, Below, Above;
    if rows != [] {
      var m := |rows| - 1;
      var rest := RowsIn(rows, KeyRange(lower, None));
      var before := RowsIn(rows[..m], KeyRange(lower, None));
      NoUpper(rows[m].key);
      if Above(rows[m].key, lower) {
        assert rest == before + [rows[m]];
        assert rest[|before|] == rows[m] && forall i :: 0 <= i < |before| ==> before[i] == rest[i];
        if n == |rest| {
          CutAtUpper(rows[..m], lower, upper, n - 1);
          assert before[..n - 1] == before && rest[..n] == rest;
        } else {
          if n < |before| {
            RowsInRise(rows, KeyRange(lower, None));
            PastStaysPast(rest[n].key, rows[m].key, upper);
          }
          CutAtUpper(rows[..m], lower, upper, n);
          assert rest[..n] == before[..n];
        }
      } else {
        assert rest == before;
        CutAtUpper(rows[..m], lower, upper, n);
      }
    }
  }

  lemma NoUpper(k: Text)
    ensures Below(k, None)
  {}

  lemma PastStaysPast(a: Text, b: Text, upper: Option<Text>)
    requires Less(a, b) && !Below(a, upper)
    ensures !Below(b, upper)
  {
    if Below(b, upper) {
      if Less(b, upper.value) { LessTransitive(a, b, upper.value); }
    }
  }

  /** Splitting a range at a point inside it splits its rows in two. */
  lemma {:induction false} RowsSplit(rows: seq<Listed>, lower: Option<Text>, at: Text, upper: Option<Text>)
    requires Rising(rows) && Above(at, lower) && Below(at, upper)
    ensures RowsIn(rows, KeyRange(lower, upper)) ==
        RowsIn(rows, KeyRange(lower, Some(at))) + RowsIn(rows, KeyRange(Some(at), upper))
  {
    hide Less, Utf8;
    if rows != [] {
      var n := |rows| - 1;
      RowsSplit(rows[..n], lower, at, upper);
      SidesOf(rows[n].key, lower, at, upper);
      if Inside(rows[n].key, KeyRange(lower, Some(at))) {
        NothingPast(rows[..n], rows[n].key, at, upper);
      }
    }
  }

  lemma SidesOf(k: Text, lower: Option<Text>, at: Text, upper: Option<Text>)
    requires Above(at, lower) && Below(at, upper)
    ensures Inside(k, KeyRange(lower, upper)) <==>
        Inside(k, KeyRange(lower, Some(at))) || Inside(k, KeyRange(Some(at), upper))
    ensures !(Inside(k, KeyRange(lower, Some(at))) && Inside(k, KeyRange(Some(at), upper)))
  {
    LessTotal(k, at);
    LessIrreflexive(at);
    if Less(at, k) {
      LessAsymmetric(at, k);
      if lower.Some? { LessTransitive(lower.value, at, k); }
    }
    if Less(k, at) {
      LessAsymmetric(k, at);
      if upper.Some? && Less(at, upper.value) { LessTransitive(k, at, upper.value); }
    }
  }

  lemma {:induction false} NothingPast(rows: seq<Listed>, k: Text, at: Text, upper: Option<Text>)
    requires AtMost(k, at) && forall i :: 0 <= i < |rows| ==> Less(rows[i].key, k)
    ensures RowsIn(rows, KeyRange(Some(at), upper)) == []
  {
    if rows != [] {
      var x := rows[|rows| - 1].key;
      NothingPast(rows[..|rows| - 1], k, at, upper);
      if Less(k, at) { LessTransitive(x, k, at); }
      LessAsymmetric(x, at);
    }
  }

  // ----- all ranges together -----

  function Together(rows: seq<Listed>, boundaries: seq<Text>, n: nat): seq<Listed>
    requires n <= |boundaries| + 1
  {
    if n == 0 then [] else Together(rows, boundaries, n - 1) + RowsIn(rows, RangeAt(boundaries, n - 1))
  }

  lemma TogetherNext(rows: seq<Listed>, boundaries: seq<Text>, n: nat)
    requires n <= |boundaries|
    ensures Together(rows, boundaries, 0) == []
    ensures Together(rows, boundaries, n + 1) == Together(rows, boundaries, n) + RowsIn(rows, RangeAt(boundaries, n))
  {}

  lemma {:induction false} TogetherUpTo(rows: seq<Listed>, boundaries: seq<Text>, n: nat)
    requires Rising(rows) && Ascending(boundaries) && n < |boundaries|
    ensures Together(rows, boundaries, n + 1) == RowsIn(rows, KeyRange(None, Some(boundaries[n])))
  {
    hide Less, Utf8, RowsIn, Together, Rising;
    TogetherNext(rows, boundaries, n);
    if n > 0 {
      TogetherUpTo(rows, boundaries, n - 1);
      RowsSplit(rows, None, boundaries[n - 1], Some(boundaries[n]));
    }
  }

  lemma Anywhere(key: Text)
    ensures Inside(key, KeyRange(None, None))
  {}

  lemma {:induction false} RowsInAll(rows: seq<Listed>)
    ensures RowsIn(rows, KeyRange(None, None)) == rows
  {
    hide Above, Below, Utf8;
    if rows != [] {
      var n := |rows| - 1;
      RowsInAll(rows[..n]);
      assert Inside(rows[n].key, KeyRange(None, None)) by { Anywhere(rows[n].key); }
      assert rows == rows[..n] + [rows[n]];
    }
  }

  /** The ranges' rows, one range after another, are the whole snapshot in order: every key
      once and none twice. */
  lemma RangesExhaust(rows: seq<Listed>, boundaries: seq<Text>)
    requires Rising(rows) && Ascending(boundaries)
    ensures Together(rows, boundaries, |boundaries| + 1) == rows
  {
    hide Less, Utf8, RowsIn, Together, Rising, Ascending;
    RowsInAll(rows);
    var n := |boundaries|;
    TogetherNext(rows, boundaries, n);
    if n > 0 {
      TogetherUpTo(rows, boundaries, n - 1);
      assert Above(boundaries[n - 1], None) && Below(boundaries[n - 1], None);
      RowsSplit(rows, None, boundaries[n - 1], None);
    }
  }
}
