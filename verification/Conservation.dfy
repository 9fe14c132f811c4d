/** Accounting: the statistics kept beside the rows equal what the rows add up to, exactly
    as long as every total passed through fits 64 bits (src/index.rs). */
module Conservation {
  import opened Base
  import opened Ordered
  import opened Sums
  import opened Entries
  import opened Rows
  import opened Wire
  import opened Buckets
  import opened ImageCodec
  import opened Index
  import opened Install
  import opened Machine
  import opened Reachable
  import Delta

  // ----- what the rows add up to -----

  datatype Amount = Amount(objects: int, bytes: int)

  function Together(a: Amount, b: Amount): Amount { Amount(a.objects + b.objects, a.bytes + b.bytes) }

  function Apart(a: Amount, b: Amount): Amount { Amount(a.objects - b.objects, a.bytes - b.bytes) }

  predicate Word(a: Amount) { a.objects < U64_LIMIT && a.bytes < U64_LIMIT }

  predicate Natural(a: Amount) { a.objects >= 0 && a.bytes >= 0 }

  ghost function Known(k: Text, e: Entry): int { KnownBytes(e) }

  ghost function Held(b: Bucket): Amount { Amount(|b.keys.rows|, Sum(b.keys.rows, Known)) }

  ghost function HeldObjects(name: Text, b: Bucket): int { Held(b).objects }
  ghost function HeldBytes(name: Text, b: Bucket): int { Held(b).bytes }

  ghost function HeldAll(buckets: map<Text, Bucket>): Amount {
    Amount(Sum(buckets, HeldObjects), Sum(buckets, HeldBytes))
  }

  function Shown(s: Stats): Amount { Amount(s.objects, s.bytes) }

  lemma HeldNatural(b: Bucket)
    ensures Natural(Held(b))
  {
    SumNonNegative(b.keys.rows, Known);
  }

  lemma HeldAllNatural(buckets: map<Text, Bucket>)
    ensures Natural(HeldAll(buckets))
  {
    forall name | name in buckets ensures Natural(Held(buckets[name])) { HeldNatural(buckets[name]); }
    SumNonNegative(buckets, HeldObjects);
    SumNonNegative(buckets, HeldBytes);
  }

  // ----- one bucket beside the rest of the index -----

  /** The bucket's statistics are its rows', and the totals those and `rest`. */
  ghost predicate CellExact(c: Cell, rest: Amount) {
    Shown(c.bucket.stats) == Held(c.bucket) && Shown(c.total) == Together(rest, Held(c.bucket))
  }

  lemma ReplaceExact(s: Stats, held: Amount, previous: Stats, current: Stats)
    requires Shown(s) == held && previous.objects <= s.objects && previous.bytes <= s.bytes
    ensures var after := Together(Apart(held, Shown(previous)), Shown(current));
      Shown(Replace(s, previous, current)) == after <==> Word(after)
  {}

  lemma RowHeld(b: Bucket, key: Text)
    ensures RowStats(b, key).objects <= Held(b).objects && RowStats(b, key).bytes <= Held(b).bytes
  {
    if key in b.keys.rows {
      SumRemove(b.keys.rows, Known, key);
      SumNonNegative(b.keys.rows - {key}, Known);
      assert key in b.keys.rows.Keys && |b.keys.rows.Keys| == |b.keys.rows|;
    } else {
      HeldNatural(b);
    }
  }

  lemma InsertHeld(b: Bucket, key: Text, e: Entry)
    ensures Held(b.(keys := KeyInsert(b.keys, key, e))) ==
        Together(Apart(Held(b), Shown(RowStats(b, key))), Shown(StatsOf(e)))
  {
    hide AddTally, SubTally, EntryTally;
    SumInsert(b.keys.rows, Known, key, e);
    if key in b.keys.rows { assert b.keys.rows[key := e].Keys == b.keys.rows.Keys; }
    assert |b.keys.rows[key := e].Keys| == |b.keys.rows[key := e]|;
  }

  /** Replacing a row keeps the accounts exact if and only if the new totals fit. */
  lemma InsertRowExact(c: Cell, rest: Amount, key: Text, e: Entry)
    requires CellExact(c, rest) && Natural(rest)
    ensures CellExact(InsertRow(c, key, e), rest) <==> Word(Together(rest, Held(InsertRow(c, key, e).bucket)))
  {
    hide KeyInsert, Replace, Held;
    RowHeld(c.bucket, key);
    InsertHeld(c.bucket, key, e);
    var r := InsertRow(c, key, e);
    assert Held(r.bucket) == Held(c.bucket.(keys := KeyInsert(c.bucket.keys, key, e))) by {
      SameHeld(r.bucket, c.bucket.(keys := KeyInsert(c.bucket.keys, key, e)));
    }
    HeldNatural(r.bucket);
    ReplaceExact(c.bucket.stats, Held(c.bucket), RowStats(c.bucket, key), StatsOf(e));
    ReplaceExact(c.total, Together(rest, Held(c.bucket)), RowStats(c.bucket, key), StatsOf(e));
  }

  lemma SameHeld(b: Bucket, d: Bucket)
    requires d.keys == b.keys
    ensures Held(b) == Held(d)
  {}

  lemma RemoveHeld(b: Bucket, key: Text)
    requires key in b.keys.rows
    ensures Held(b.(keys := KeyRemove(b.keys, key))) == Apart(Held(b), Shown(RowStats(b, key)))
  {
    hide SubTally, EntryTally;
    SumRemove(b.keys.rows, Known, key);
    assert (b.keys.rows - {key}).Keys == b.keys.rows.Keys - {key};
    assert |(b.keys.rows - {key}).Keys| == |b.keys.rows - {key}| && |b.keys.rows.Keys| == |b.keys.rows|;
  }

  lemma RemoveRowExact(c: Cell, rest: Amount, key: Text)
    requires CellExact(c, rest) && Natural(rest)
    ensures CellExact(RemoveRow(c, key), rest)
  {
    if key in c.bucket.keys.rows {
      hide Replace, KeyRemove, Held;
      RowHeld(c.bucket, key);
      RemoveHeld(c.bucket, key);
      var r := RemoveRow(c, key);
      var d := c.bucket.(keys := KeyRemove(c.bucket.keys, key));
      SameHeld(r.bucket, d);
      HeldNatural(d);
      ReplaceExact(c.bucket.stats, Held(c.bucket), RowStats(c.bucket, key), NO_STATS);
      ReplaceExact(c.total, Together(rest, Held(c.bucket)), RowStats(c.bucket, key), NO_STATS);
    }
  }

  /** Fences, tombstones and rebuild marks are not accounted. */
  lemma SameExact(c: Cell, d: Cell, rest: Amount)
    requires CellExact(c, rest) && d.bucket.keys == c.bucket.keys
    requires d.bucket.stats == c.bucket.stats && d.total == c.total
    ensures CellExact(d, rest) && Held(d.bucket) == Held(c.bucket)
  {}

  ghost predicate Fits(b: Bucket, rest: Amount) { Word(Together(rest, Held(b))) }

  lemma PutExact(c: Cell, rest: Amount, key: Text, e: Entry, definitive: bool)
    requires CellExact(c, rest) && Natural(rest)
    ensures CellExact(PutCell(c, key, e, definitive), rest) <==> Fits(PutCell(c, key, e, definitive).bucket, rest)
  {
    hide InsertRow, CellExact, GoneRemove, Held;
    var b := c.bucket;
    if !PutAccepted(b, key, e.lastModified, definitive) {
      ExactFits(c, rest);
    } else if !definitive {
      InsertRowExact(c, rest, key, e);
    } else {
      var cleared := if FirstMutation(b, key) then b.(gone := GoneRemove(b.gone, key)) else b;
      SameExact(c, Cell(Settle(cleared, key), c.total), rest);
      InsertRowExact(Cell(Settle(cleared, key), c.total), rest, key, e);
    }
  }

  lemma ExactFits(c: Cell, rest: Amount)
    requires CellExact(c, rest)
    ensures Fits(c.bucket, rest)
  {}

  lemma DelExact(c: Cell, rest: Amount, key: Text, ts: Time, sweep: bool)
    requires CellExact(c, rest) && Natural(rest)
    ensures CellExact(DelCell(c, key, ts, sweep), rest)
  {
    hide RemoveRow, CellExact, Held, Sweep, GoneInsert, GoneRaise;
    var dead := Entombed(Pruned(c.bucket, ts, sweep), key, ts);
    SameExact(c, Cell(dead, c.total), rest);
    SameExact(c, Cell(Settle(dead, key), c.total), rest);
    RemoveRowExact(Cell(Settle(dead, key), c.total), rest, key);
  }

  lemma CompleteExact(c: Cell, rest: Amount, key: Text, f: Fill)
    requires CellExact(c, rest) && Natural(rest)
    ensures CellExact(CompleteCell(c, key, f), rest) <==> Fits(CompleteCell(c, key, f).bucket, rest)
  {
    hide InsertRow, CellExact, Held;
    if CompletionOf(c.bucket, key, f).Completed? {
      InsertRowExact(c, rest, key, Filled(c.bucket.keys.rows[key], f));
    } else {
      ExactFits(c, rest);
    }
  }

  lemma ResolveExact(c: Cell, rest: Amount, key: Text, token: nat, truth: Authoritative)
    requires CellExact(c, rest) && Natural(rest)
    ensures CellExact(ResolveCell(c, key, token, truth), rest) <==> Fits(ResolveCell(c, key, token, truth).bucket, rest)
  {
    hide InsertRow, RemoveRow, CellExact, Held, GoneRemove, GoneRaise;
    var b := c.bucket;
    if !OwnsFence(b, key, token) {
      ExactFits(c, rest);
    } else {
      match truth {
        case Present(e) =>
          var d := Cell(Settle(b.(gone := GoneRemove(b.gone, key)), key), c.total);
          SameExact(c, d, rest);
          InsertRowExact(d, rest, key, e);
        case Absent(now) =>
          var d := Cell(Settle(b.(gone := GoneRaise(b.gone, key, now)), key), c.total);
          SameExact(c, d, rest);
          RemoveRowExact(d, rest, key);
          ExactFits(RemoveRow(d, key), rest);
      }
    }
  }

  /** A page is folded row by row, and every row's totals must fit. */
  ghost predicate PageFits(c: Cell, rows: seq<Listed>, rest: Amount) {
    && Fits(ListRows(c, rows).bucket, rest)
    && (rows != [] ==> PageFits(c, rows[..|rows| - 1], rest))
  }

  lemma {:induction false} ListExact(c: Cell, rest: Amount, rows: seq<Listed>)
    requires CellExact(c, rest) && Natural(rest) && PageFits(c, rows, rest)
    ensures CellExact(ListRows(c, rows), rest)
  {
    hide InsertRow, CellExact, Held, ListAccepted;
    if rows != [] {
      var n := |rows| - 1;
      ListExact(c, rest, rows[..n]);
      InsertRowExact(ListRows(c, rows[..n]), rest, rows[n].key, rows[n].entry);
    }
  }

  // ----- the whole index -----

  ghost predicate Exact(buckets: map<Text, Bucket>, stats: Stats) {
    && (forall name :: name in buckets ==> Shown(buckets[name].stats) == Held(buckets[name]))
    && Shown(stats) == HeldAll(buckets)
  }

  ghost predicate IndexExact(s: Index) { Exact(s.buckets, s.stats) }

  ghost function Rest(buckets: map<Text, Bucket>, name: Text): Amount {
    Apart(HeldAll(buckets), Held(BucketAt(buckets, name)))
  }

  lemma HoldsNothing()
    ensures Held(EMPTY_BUCKET) == Amount(0, 0)
  {
    assert Sum(EMPTY_BUCKET.keys.rows, Known) == 0;
  }

  lemma RestIs(buckets: map<Text, Bucket>, name: Text)
    ensures Rest(buckets, name) == HeldAll(buckets - {name}) && Natural(Rest(buckets, name))
  {
    hide Held;
    HeldAllNatural(buckets - {name});
    if name in buckets {
      SumRemove(buckets, HeldObjects, name);
      SumRemove(buckets, HeldBytes, name);
    } else {
      HoldsNothing();
      assert buckets - {name} == buckets;
    }
  }

  lemma SlotExact(buckets: map<Text, Bucket>, stats: Stats, name: Text)
    requires Exact(buckets, stats)
    ensures CellExact(Cell(BucketAt(buckets, name), stats), Rest(buckets, name)) && Natural(Rest(buckets, name))
  {
    hide Held, HeldAll;
    RestIs(buckets, name);
    HoldsNothing();
  }

  lemma PutBack(buckets: map<Text, Bucket>, stats: Stats, name: Text, c: Cell)
    requires Exact(buckets, stats) && CellExact(c, Rest(buckets, name))
    ensures Exact(buckets[name := c.bucket], c.total)
  {
    TotalsWith(buckets, name, c.bucket);
    hide Held, HeldAll;
  }

  /** With one bucket replaced, the totals are the rest's and its own. */
  lemma TotalsWith(buckets: map<Text, Bucket>, name: Text, b: Bucket)
    ensures HeldAll(buckets[name := b]) == Together(Rest(buckets, name), Held(b))
  {
    hide Held;
    RestIs(buckets, name);
    SumRemove(buckets[name := b], HeldObjects, name);
    SumRemove(buckets[name := b], HeldBytes, name);
    assert buckets[name := b] - {name} == buckets - {name};
  }

  // ----- operations on one bucket -----

  lemma ReplacedExact(s: Index, name: Text, c: Cell)
    requires IndexExact(s) && (CellExact(c, Rest(s.buckets, name)) <==> Fits(c.bucket, Rest(s.buckets, name)))
    ensures IndexExact(WithCell(s, name, c)) <==> Word(HeldAll(WithCell(s, name, c).buckets))
  {
    hide IndexExact, Exact, Held, HeldAll, CellExact, Rest;
    var t := WithCell(s, name, c);
    TotalsWith(s.buckets, name, c.bucket);
    if IndexExact(t) {
      ExactWord(t);
    } else if Word(HeldAll(t.buckets)) {
      PutBackIndex(s, name, c);
    }
  }

  lemma PutBackIndex(s: Index, name: Text, c: Cell)
    requires IndexExact(s) && CellExact(c, Rest(s.buckets, name))
    ensures IndexExact(WithCell(s, name, c))
  {
    hide Exact, CellExact, Rest;
    PutBack(s.buckets, s.stats, name, c);
  }

  /** Outside pages and installs a step keeps the accounts exact if and only if the totals
      it leaves fit. */
  lemma PutStepExact(s: Index, name: Text, key: Text, e: Entry, definitive: bool, id: Option<NativeCut>, admitted: bool)
    requires IndexExact(s)
    ensures var t := Put(s, name, key, e, definitive, id, admitted); IndexExact(t) <==> Word(HeldAll(t.buckets))
  {
    hide PutCell, PutAccepted, Opened, NotedIf, Journaled, JournaledNoop, Duplicate, CellExact, HeldAll;
    ExactWord(s);
    if !Suppressed(s, id) {
      var s1 := Opened(NotedIf(s, id), name);
      SameBuckets(s, id, name, Delta.Noop, admitted);
      SameBuckets(NotedIf(s, id), id, name, Delta.Noop, admitted);
      SlotExact(s1.buckets, s1.stats, name);
      var c := PutCell(CellOf(s1, name), key, e, definitive);
      PutExact(CellOf(s1, name), Rest(s1.buckets, name), key, e, definitive);
      ReplacedExact(s1, name, c);
      SameBuckets(WithCell(s1, name, c), id, name, Delta.Put(name, key, e), admitted);
    }
  }

  lemma ExactWord(s: Index)
    requires IndexExact(s)
    ensures Word(HeldAll(s.buckets))
  {}

  lemma DelStepExact(s: Index, name: Text, key: Text, ts: Time, sweep: bool, id: Option<NativeCut>, admitted: bool)
    requires IndexExact(s)
    ensures IndexExact(Del(s, name, key, ts, sweep, id, admitted))
  {
    hide DelCell, Pruned, Opened, NotedIf, Journaled, JournaledNoop, Duplicate, CellExact, HeldAll;
    if !Suppressed(s, id) {
      var s1 := Opened(NotedIf(s, id), name);
      SameBuckets(s, id, name, Delta.Noop, admitted);
      SameBuckets(NotedIf(s, id), id, name, Delta.Noop, admitted);
      var run := sweep && s1.capture.None?;
      SlotExact(s1.buckets, s1.stats, name);
      var c := DelCell(CellOf(s1, name), key, ts, run);
      DelExact(CellOf(s1, name), Rest(s1.buckets, name), key, ts, run);
      PutBack(s1.buckets, s1.stats, name, c);
      var s2 := WithCell(s1, name, c);
      SameBuckets(s2, id, name, Delta.Delete(name, key, BucketOf(s2, name).gone.rows[key]), admitted);
    }
  }

  lemma CompleteStepExact(s: Index, name: Text, key: Text, f: Fill, admitted: bool)
    requires IndexExact(s)
    ensures var t := Complete(s, name, key, f, admitted); IndexExact(t) <==> Word(HeldAll(t.buckets))
  {
    hide CompleteCell, Journaled, CellExact, HeldAll;
    ExactWord(s);
    if name in s.buckets && CompletionOf(s.buckets[name], key, f).Completed? {
      SlotExact(s.buckets, s.stats, name);
      var c := CompleteCell(CellOf(s, name), key, f);
      CompleteExact(CellOf(s, name), Rest(s.buckets, name), key, f);
      ReplacedExact(s, name, c);
      CompletedHolds(CellOf(s, name), key, f);
      var t := WithCell(s, name, c);
      SameBuckets(t, None, name, Delta.Put(name, key, t.buckets[name].keys.rows[key]), admitted);
    }
  }

  lemma ResolveStepExact(s: Index, name: Text, key: Text, token: nat, truth: Authoritative)
    requires IndexExact(s)
    ensures var t := Resolve(s, name, key, token, truth); IndexExact(t) <==> Word(HeldAll(t.buckets))
  {
    hide ResolveCell, CellExact, HeldAll;
    ExactWord(s);
    if name in s.buckets {
      SlotExact(s.buckets, s.stats, name);
      var c := ResolveCell(CellOf(s, name), key, token, truth);
      ResolveExact(CellOf(s, name), Rest(s.buckets, name), key, token, truth);
      ReplacedExact(s, name, c);
    }
  }

  lemma ListStepExact(s: Index, name: Text, generation: u64, rows: seq<Listed>)
    requires IndexExact(s)
    requires Rebuilding(BucketOf(s, name), generation) ==> PageFits(CellOf(s, name), rows, Rest(s.buckets, name))
    ensures IndexExact(ListPage(s, name, generation, rows))
  {
    hide ListRows, CellExact, HeldAll, PageFits;
    var s1 := Invalidated(s);
    SlotExact(s1.buckets, s1.stats, name);
    var c := CellOf(s1, name);
    if Rebuilding(c.bucket, generation) { ListExact(c, Rest(s1.buckets, name), rows); }
    PutBack(s1.buckets, s1.stats, name, if Rebuilding(c.bucket, generation) then ListRows(c, rows) else c);
  }

  lemma FenceStepExact(s: Index, name: Text, key: Text, id: Option<NativeCut>, own: bool)
    requires IndexExact(s)
    ensures IndexExact(Fence(s, name, key, id, own))
  {
    hide NotedIf, Duplicate, CellExact, HeldAll;
    SameBuckets(s, id, name, Delta.Noop, true);
    SameBuckets(NotedIf(s, id), id, name, Delta.Noop, true);
    SlotExact(s.buckets, s.stats, name);
    var c := Cell(FenceBucket(BucketOf(s, name), key), s.stats);
    SameExact(CellOf(s, name), c, Rest(s.buckets, name));
    PutBack(s.buckets, s.stats, name, c);
  }

  lemma FinishStepExact(s: Index, name: Text, generation: u64)
    requires IndexExact(s)
    ensures IndexExact(Finish(s, name, generation))
  {
    hide CellExact, HeldAll;
    SlotExact(s.buckets, s.stats, name);
    var b := BucketOf(s, name);
    var c := Cell(if Rebuilding(b, generation) then Finished(b) else b, s.stats);
    SameExact(CellOf(s, name), c, Rest(s.buckets, name));
    PutBack(s.buckets, s.stats, name, c);
  }

  /** A bucket emptied takes exactly its own rows out of the totals. */
  lemma EmptiedExact(buckets: map<Text, Bucket>, stats: Stats, name: Text, b: Bucket)
    requires Exact(buckets, stats) && b.keys == NO_KEYS && b.stats == NO_STATS
    ensures Exact(buckets[name := b], Replace(stats, BucketAt(buckets, name).stats, NO_STATS))
  {
    hide HeldAll, Replace;
    SlotExact(buckets, stats, name);
    HoldsNothing();
    SameHeld(b, EMPTY_BUCKET);
    var gone := BucketAt(buckets, name).stats;
    HeldNatural(BucketAt(buckets, name));
    hide Held;
    ReplaceExact(stats, Together(Rest(buckets, name), Held(BucketAt(buckets, name))), gone, NO_STATS);
    PutBack(buckets, stats, name, Cell(b, Replace(stats, gone, NO_STATS)));
  }

  lemma ResyncStepExact(s: Index, name: Text)
    requires IndexExact(s)
    ensures IndexExact(Resync(s, name))
  {
    hide Replace, HeldAll;
    EmptiedExact(s.buckets, s.stats, name, Resynced(BucketOf(s, name)));
  }

  lemma RemoveStepExact(s: Index, name: Text)
    requires IndexExact(s)
    ensures IndexExact(RemoveBucket(s, name))
  {
    hide Replace, Held, Utf8;
    if name in s.buckets {
      EmptiedExact(s.buckets, s.stats, name, EMPTY_BUCKET);
      HoldsNothing();
      var m := s.buckets[name := EMPTY_BUCKET];
      SumRemove(m, HeldObjects, name);
      SumRemove(m, HeldBytes, name);
      assert m - {name} == s.buckets - {name};
    }
  }

  // ----- discarding every bucket -----

  lemma {:induction false} DiscardSomeExact(buckets: map<Text, Bucket>, stats: Stats, names: seq<Text>)
    requires Exact(buckets, stats) && Distinct(names) && forall name :: name in names ==> name in buckets
    ensures Exact(DiscardSome(buckets, names), StatsWithout(stats, buckets, names))
  {
    hide Exact, Held, HeldAll, Replace, Utf8;
    if names == [] {
      assert DiscardSome(buckets, names) == buckets;
    } else {
      var n := |names| - 1;
      var name := names[n];
      DiscardSomeExact(buckets, stats, names[..n]);
      var done := DiscardSome(buckets, names[..n]);
      assert names == names[..n] + [name] && name !in names[..n];
      DiscardNext(buckets, names[..n], name);
      hide DiscardSome, Distinct;
      EmptiedExact(done, StatsWithout(stats, buckets, names[..n]), name, Discarded(buckets[name]));
    }
  }

  lemma DiscardStepExact(s: Index, missed: NativeCut)
    requires IndexExact(s)
    ensures IndexExact(DiscardForGap(s, missed))
  {
    hide Exact, StatsWithout, Sorted, Discarded, Ascending, Distinct;
    var names := Sorted(s.buckets.Keys);
    SortedAscends(s.buckets.Keys);
    AscendingDistinct(names);
    DiscardSomeExact(s.buckets, s.stats, names);
    DiscardIs(s, missed, names);
  }

  lemma DiscardIs(s: Index, missed: NativeCut, names: seq<Text>)
    requires names == Sorted(s.buckets.Keys)
    ensures DiscardForGap(s, missed).buckets == DiscardSome(s.buckets, names)
    ensures DiscardForGap(s, missed).stats == StatsWithout(s.stats, s.buckets, names)
  {
    hide StatsWithout, Discarded, Beyond;
    var g := SkipGap(s, missed);
    assert g.buckets == s.buckets && g.stats == s.stats;
  }
}
