/** The index as the program updates it in place under its lock (src/index.rs,
    src/index/fleet.rs), each method proved against the index functions. */
module KeyIndex {
  import opened Base
  import opened Ordered
  import opened Entries
  import opened Rows
  import opened Buckets
  import opened Image
  import opened ImageCodec
  import opened Index
  import opened Install
  import opened InstallSafety
  import opened Carrying
  import ImageSizes
  import Machine
  import opened Reachable
  import opened KeyHistory
  import Delta

  class KeyIndex {
    var buckets: map<Text, Bucket>
    var stats: Stats
    var capture: Option<Capture>
    var cuts: map<seq<byte>, Position>

    ghost function View(): Index
      reads this
    {
      Index(buckets, stats, capture, cuts)
    }

    constructor ()
      ensures View() == EMPTY_INDEX
    {
      buckets, stats, capture, cuts := map[], NO_STATS, None, map[];
    }

    // ----- the capture -----

    method Invalidate()
      modifies this`capture
      ensures View() == Invalidated(old(View()))
    {
      if capture.Some? {
        capture := Some(capture.value.(valid := false));
      }
    }

    /** Record native coverage. Only a known duplicate is not unseen; cuts the bookkeeping
        cannot take withdraw the capture but never drop the update. */
    method NoteNativeCut(cut: NativeCut) returns (unseen: bool)
      modifies this`capture, this`cuts
      ensures unseen <==> !Duplicate(old(View()), cut)
      ensures View() == if unseen then Noted(old(View()), cut) else old(View())
    {
      if |cut.writer| == 0 || |cut.writer| > MAX_NATIVE_ID_BYTES || cut.epoch == 0 || cut.sequence == 0 {
        Invalidate();
        return true;
      }
      if cut.writer !in cuts {
        if |cuts| < MAX_NATIVE_WRITERS {
          cuts := cuts[cut.writer := Position(cut.epoch, cut.sequence)];
        }
        Invalidate();
        return true;
      }
      var at := cuts[cut.writer];
      if cut.epoch == at.epoch && cut.sequence <= at.sequence {
        return false;
      }
      if cut.epoch != at.epoch || cut.sequence != at.sequence + 1 {
        Invalidate();
      }
      cuts := cuts[cut.writer := Position(cut.epoch, cut.sequence)];
      return true;
    }

    method Append(r: Record, admitted: bool)
      requires capture.Some?
      modifies this`capture
      ensures View() == old(View()).(capture := Some(Appended(old(capture).value, r, admitted)))
    {
      var c := capture.value;
      if c.valid && admitted {
        capture := Some(c.(journal := c.journal + [r]));
      } else {
        capture := Some(c.(valid := false));
      }
    }

    method Journal(id: Option<NativeCut>, d: Delta.Delta, admitted: bool)
      modifies this`capture
      ensures View() == Journaled(old(View()), id, d, admitted)
    {
      hide Delta.EncodeDelta;
      if capture.None? {
        return;
      }
      var c := capture.value;
      var effect := Delta.EncodeDelta(d, c.maxEvent, c.maxName);
      if effect.None? {
        Invalidate();
        return;
      }
      if id.Some? {
        Append(Record(Native(id.value), effect.value), admitted);
        return;
      }
      if c.nextLocal + 1 >= U64_LIMIT {
        Invalidate();
        return;
      }
      capture := Some(c.(nextLocal := c.nextLocal + 1));
      Append(Record(Local(c.nextLocal + 1), effect.value), admitted);
    }

    method JournalNoop(id: Option<NativeCut>, admitted: bool)
      modifies this`capture
      ensures View() == JournaledNoop(old(View()), id, admitted)
    {
      if id.Some? {
        Journal(id, Delta.Noop, admitted);
      }
    }

    // ----- mutations -----

    /** The common head of puts and deletes: the cut noted and the bucket found or opened, or
        nothing at all for a duplicate. */
    method Enter(bucket: Text, id: Option<NativeCut>) returns (entered: Option<Bucket>)
      modifies this
      ensures entered.None? <==> Suppressed(old(View()), id)
      ensures entered.None? ==> View() == old(View())
      ensures entered.Some? ==>
                var s1 := Opened(NotedIf(old(View()), id), bucket);
                View() == WithCell(s1, bucket, CellOf(s1, bucket)) && entered.value == BucketOf(s1, bucket)
    {
      hide Duplicate, Noted;
      if id.Some? {
        var unseen := NoteNativeCut(id.value);
        if !unseen {
          return None;
        }
      }
      if bucket !in buckets {
        Invalidate();
      }
      var b := if bucket in buckets then buckets[bucket] else EMPTY_BUCKET;
      buckets := buckets[bucket := b];
      return Some(b);
    }

    /** Replace one row's contribution to the bucket's totals and the index's. */
    method Account(b: Bucket, previous: Stats, current: Stats) returns (r: Bucket)
      modifies this`stats
      ensures r == b.(stats := Replace(b.stats, previous, current)) && stats == Replace(old(stats), previous, current)
    {
      stats := Replace(stats, previous, current);
      return b.(stats := Replace(b.stats, previous, current));
    }

    method Insert(b: Bucket, key: Text, entry: Entry) returns (r: Bucket)
      modifies this`stats
      ensures Cell(r, stats) == InsertRow(Cell(b, old(stats)), key, entry)
    {
      var previous := if key in b.keys.rows then StatsOf(b.keys.rows[key]) else NO_STATS;
      r := b.(keys := KeyInsert(b.keys, key, entry));
      r := Account(r, previous, StatsOf(entry));
    }

    method Remove(b: Bucket, key: Text) returns (r: Bucket, removed: bool)
      modifies this`stats
      ensures Cell(r, stats) == RemoveRow(Cell(b, old(stats)), key) && removed == (key in b.keys.rows)
    {
      if key !in b.keys.rows {
        return b, false;
      }
      r := b.(keys := KeyRemove(b.keys, key));
      r := Account(r, StatsOf(b.keys.rows[key]), NO_STATS);
      removed := true;
    }

    method ApplyPut(bucket: Text, key: Text, entry: Entry, definitive: bool, id: Option<NativeCut>, admitted: bool)
      returns (applied: bool)
      modifies this
      ensures View() == Put(old(View()), bucket, key, entry, definitive, id, admitted)
      ensures applied <==>
          !Suppressed(old(View()), id) && PutAccepted(BucketOf(old(View()), bucket), key,
                                                      entry.lastModified, definitive)
    {
      hide Duplicate, NotedIf, Opened, Journaled, JournaledNoop, Utf8, PutCell;
      ghost var s := View();
      var entered := Enter(bucket, id);
      if entered.None? {
        return false;
      }
      SameBuckets(s, id, bucket, Delta.Noop, admitted);
      SameBuckets(NotedIf(s, id), id, bucket, Delta.Noop, admitted);
      ghost var s1 := Opened(NotedIf(s, id), bucket);
      var b := entered.value;
      if !PutAccepted(b, key, entry.lastModified, definitive) { RejectedPut(Cell(b, stats), key, entry, definitive); }
      var ts := entry.lastModified;
      var first := definitive && b.rebuild.Some? && key !in b.touched;
      if !first && key in b.gone.rows && b.gone.rows[key] >= ts {
        JournalNoop(id, admitted);
        return false;
      }
      if !first && key in b.keys.rows && b.keys.rows[key].lastModified > ts {
        JournalNoop(id, admitted);
        return false;
      }
      if !definitive && key in b.touched {
        JournalNoop(id, admitted);
        return false;
      }
      b := AcceptPut(b, key, entry, definitive);
      buckets := buckets[bucket := b];
      assert View() == WithCell(s1, bucket, Cell(b, stats));
      Journal(id, Delta.Put(bucket, key, entry), admitted);
      return true;
    }

    method AcceptPut(b: Bucket, key: Text, entry: Entry, definitive: bool) returns (r: Bucket)
      requires PutAccepted(b, key, entry.lastModified, definitive)
      modifies this`stats
      ensures Cell(r, stats) == PutCell(Cell(b, old(stats)), key, entry, definitive)
    {
      hide PutAccepted, Replace, Utf8;
      r := b;
      if definitive && b.rebuild.Some? && key !in b.touched {
        r := r.(gone := GoneRemove(r.gone, key));
      }
      r := Insert(r, key, entry);
      if definitive {
        r := r.(fences := r.fences - {key});
        if r.rebuild.Some? {
          r := r.(touched := r.touched + {key});
        }
      }
    }

    /** A delete always leaves a tombstone, even one that lost to a newer put. */
    method ApplyDel(bucket: Text, key: Text, ts: Time, sweep: bool, id: Option<NativeCut>, admitted: bool)
      returns (removed: bool)
      modifies this
      ensures View() == Del(old(View()), bucket, key, ts, sweep, id, admitted)
      ensures var swept := Pruned(BucketOf(old(View()), bucket), ts, sweep && old(capture).None?);
        removed <==> !Suppressed(old(View()), id) && DelAccepted(swept, key, ts) && key in swept.keys.rows
    {
      hide Del, Suppressed, NotedIf, Opened, Journaled, JournaledNoop, Utf8, DelCell, Pruned, DelAccepted, RowOf,
           TombOf;
      ghost var s := View();
      var entered := Enter(bucket, id);
      if entered.None? {
        IdleDel(s, bucket, key, ts, sweep, id, admitted);
        return false;
      }
      SameBuckets(s, id, bucket, Delta.Noop, admitted);
      SameBuckets(NotedIf(s, id), id, bucket, Delta.Noop, admitted);
      ghost var s1 := Opened(NotedIf(s, id), bucket);
      CaptureStays(s, id, bucket);
      var b := Prune(entered.value, ts, sweep && capture.None?);
      var before := b;
      b, removed := Entomb(entered.value, b, key, ts, sweep && capture.None?);
      buckets := buckets[bucket := b];
      assert View() == WithCell(s1, bucket, Cell(b, stats));
      var changed := removed || TombOf(b, key) != TombOf(before, key);
      DelLeaves(s, bucket, key, ts, sweep, id, admitted, Cell(b, stats), changed);
      JournalDelete(bucket, key, b, changed, id, admitted);
    }

    static lemma IdleDel(s: Index, bucket: Text, key: Text, ts: Time, sweep: bool, id: Option<NativeCut>,
                         admitted: bool)
      requires Suppressed(s, id)
      ensures Del(s, bucket, key, ts, sweep, id, admitted) == s
    {
      hide Del, Suppressed;
      SuppressedIdle(s, Machine.DelOp(bucket, key, ts, sweep, id, admitted));
    }

    static lemma DelLeaves(s: Index, bucket: Text, key: Text, ts: Time, sweep: bool, id: Option<NativeCut>,
                           admitted: bool, c: Cell, changed: bool)
      requires !Suppressed(s, id)
      requires var s1 := Opened(NotedIf(s, id), bucket);
        var run := sweep && s1.capture.None?;
        var before := Pruned(BucketOf(s1, bucket), ts, run);
        && c == DelCell(CellOf(s1, bucket), key, ts, run)
        && (changed <==> TombOf(c.bucket, key) != TombOf(before, key) || RowOf(c.bucket, key) != RowOf(before, key))
      ensures Del(s, bucket, key, ts, sweep, id, admitted) ==
              var s2 := WithCell(Opened(NotedIf(s, id), bucket), bucket, c);
              if changed then Journaled(s2, id, Delta.Delete(bucket, key, c.bucket.gone.rows[key]), admitted)
              else JournaledNoop(s2, id, admitted)
    {
      hide Suppressed, NotedIf, Opened, Journaled, JournaledNoop, DelCell, Pruned, RowOf, TombOf, Utf8;
    }

    /** A delete that changed the key journals the tombstone it left; one that did not still
        advances its writer. */
    method JournalDelete(bucket: Text, key: Text, b: Bucket, changed: bool, id: Option<NativeCut>, admitted: bool)
      requires key in b.gone.rows
      modifies this`capture
      ensures View() ==
              if changed then Journaled(old(View()), id, Delta.Delete(bucket, key, b.gone.rows[key]), admitted)
              else JournaledNoop(old(View()), id, admitted)
    {
      hide Journaled, JournaledNoop;
      if changed {
        Journal(id, Delta.Delete(bucket, key, b.gone.rows[key]), admitted);
      } else {
        JournalNoop(id, admitted);
      }
    }

    method Prune(b: Bucket, ts: Time, sweep: bool) returns (r: Bucket)
      ensures r == Pruned(b, ts, sweep)
    {
      hide Sweep;
      if sweep && |b.gone.rows| > TOMBSTONE_PRUNE_LEN && ts - TOMBSTONE_TTL >= -9_223_372_036_854_775_808_000_000_000 {
        return b.(gone := Sweep(b.gone, ts - TOMBSTONE_TTL));
      }
      return b;
    }

    method Entomb(ghost held: Bucket, b: Bucket, key: Text, ts: Time, ghost sweep: bool)
      returns (r: Bucket, removed: bool)
      requires b == Pruned(held, ts, sweep)
      modifies this`stats
      ensures Cell(r, stats) == DelCell(Cell(held, old(stats)), key, ts, sweep)
      ensures key in r.gone.rows && (removed <==> DelAccepted(b, key, ts) && key in b.keys.rows)
      ensures removed <==> RowOf(r, key) != RowOf(b, key)
    {
      hide Pruned, Utf8, Replace, AddTally, SubTally, GoneTally, EntryTally, Lower, Behind;
      var first := b.rebuild.Some? && key !in b.touched;
      var newer := !first && key in b.gone.rows && b.gone.rows[key] > ts;
      r := b;
      if first {
        r := r.(gone := GoneInsert(r.gone, key, ts));
      } else {
        r := r.(gone := GoneRaise(r.gone, key, ts));
      }
      if !first && key in b.keys.rows && b.keys.rows[key].lastModified > ts {
        return r, false;
      }
      if newer {
        return r, false;
      }
      r := r.(fences := r.fences - {key});
      if r.rebuild.Some? {
        r := r.(touched := r.touched + {key});
      }
      r, removed := Remove(r, key);
    }

    method FillEntry(held: Entry, fill: Fill) returns (same: bool, filled: bool, entry: Entry)
      ensures same == SameVersion(held, fill)
      ensures same ==> entry == Filled(held, fill) && filled == (entry != held)
    {
      entry := held;
      filled := false;
      same := match (entry.etag, fill.etag)
        case (Some(indexed), Some(answered)) => indexed == answered
        case (Some(_), None) => false
        case (None, _) => true;
      if !same || !(entry.size.None? || fill.size.None? || entry.size == fill.size) {
        same := false;
        return;
      }
      if entry.size.None? {
        entry := entry.(size := fill.size);
        filled := filled || entry.size.Some?;
      }
      if entry.etag.None? {
        entry := entry.(etag := fill.etag);
        filled := filled || entry.etag.Some?;
      }
      if entry.contentType.None? {
        entry := entry.(contentType := fill.contentType);
        filled := filled || entry.contentType.Some?;
      }
      if entry.meta.None? {
        entry := entry.(meta := Some(fill.meta));
        filled := true;
      }
    }

    /** Complete a held row, and report which of the four cases it was. */
    method CompleteEntry(bucket: Text, key: Text, fill: Fill, admitted: bool) returns (outcome: Completion)
      modifies this
      ensures View() == Complete(old(View()), bucket, key, fill, admitted)
      ensures outcome == if bucket in old(buckets) then CompletionOf(old(buckets)[bucket], key, fill) else NotIndexed
    {
      hide Journaled, Utf8, KeyInsert, Replace, SameVersion, Filled;
      ghost var s := View();
      if bucket !in buckets || key !in buckets[bucket].keys.rows {
        return NotIndexed;
      }
      var b := buckets[bucket];
      var same, filled, entry := FillEntry(b.keys.rows[key], fill);
      if !same {
        return OtherVersion;
      }
      if !filled {
        return AlreadyComplete;
      }
      b := Insert(b, key, entry);
      KeyInsertHolds(buckets[bucket].keys, key, entry);
      buckets := buckets[bucket := b];
      assert View() == WithCell(s, bucket, CompleteCell(CellOf(s, bucket), key, fill));
      Journal(None, Delta.Put(bucket, key, entry), admitted);
      return Completed;
    }

    lemma KeyInsertHolds(t: KeyRows, key: Text, e: Entry)
      ensures key in KeyInsert(t, key, e).rows && KeyInsert(t, key, e).rows[key] == e
    {}

    // ----- fences -----

    /** Fence one ambiguous key; the token is never handed out again by this bucket. */
    method FenceUncertainKey(bucket: Text, key: Text) returns (token: nat)
      modifies this
      ensures View() == FenceKey(old(View()), bucket, key) && token == BucketOf(old(View()), bucket).epoch + 1
    {
      Invalidate();
      var b := if bucket in buckets then buckets[bucket] else EMPTY_BUCKET;
      token := b.epoch + 1;
      b := b.(epoch := token);
      b := b.(fences := b.fences[key := token]);
      buckets := buckets[bucket := b];
    }

    method FenceUncertainKeyNative(bucket: Text, key: Text, cut: NativeCut) returns (token: Option<nat>)
      modifies this
      ensures View() == Fence(old(View()), bucket, key, Some(cut), false)
      ensures token == if Duplicate(old(View()), cut) then None else Some(BucketOf(old(View()), bucket).epoch + 1)
    {
      SameBuckets(View(), Some(cut), bucket, Delta.Noop, true);
      hide Duplicate, Noted;
      var unseen := NoteNativeCut(cut);
      if !unseen {
        return None;
      }
      var t := FenceUncertainKey(bucket, key);
      token := Some(t);
    }

    method FenceOwnUncertainKey(bucket: Text, key: Text, position: NativeCut) returns (token: nat)
      modifies this
      ensures View() == Fence(old(View()), bucket, key, Some(position), true)
      ensures token == BucketOf(old(View()), bucket).epoch + 1
    {
      SameBuckets(View(), Some(position), bucket, Delta.Noop, true);
      hide Duplicate, Noted;
      var _ := NoteNativeCut(position);
      token := FenceUncertainKey(bucket, key);
    }

    /** Apply an authoritative answer only while its exact token owns the key. */
    method ResolveUncertainKey(bucket: Text, key: Text, token: nat, truth: Authoritative) returns (resolved: bool)
      modifies this
      ensures View() == Resolve(old(View()), bucket, key, token, truth)
      ensures resolved == OwnsFence(BucketOf(old(View()), bucket), key, token)
    {
      hide Replace, KeyInsert, KeyRemove, GoneRemove, GoneRaise, Utf8;
      ghost var s := View();
      if bucket !in buckets {
        return false;
      }
      var b := buckets[bucket];
      if key !in b.fences || b.fences[key] != token {
        assert s.buckets[bucket := b] == s.buckets;
        return false;
      }
      match truth {
        case Present(entry) =>
          b := b.(gone := GoneRemove(b.gone, key));
          b := Insert(b, key, entry);
        case Absent(now) =>
          b := b.(gone := GoneRaise(b.gone, key, now));
          var removed;
          b, removed := Remove(b, key);
      }
      b := b.(fences := b.fences - {key});
      if b.rebuild.Some? {
        b := b.(touched := b.touched + {key});
      }
      buckets := buckets[bucket := b];
      return true;
    }

    // ----- rebuilds -----

    method BeginBucketResync(bucket: Text) returns (generation: u64)
      modifies this
      ensures View() == Resync(old(View()), bucket)
      ensures generation == NextGeneration(BucketOf(old(View()), bucket).generation)
    {
      hide Replace;
      Invalidate();
      var previous := if bucket in buckets then buckets[bucket] else EMPTY_BUCKET;
      generation := NextGeneration(previous.generation);
      stats := Replace(stats, previous.stats, NO_STATS);
      buckets := buckets[bucket :=
        EMPTY_BUCKET.(generation := generation, rebuild := Some(generation), epoch := previous.epoch,
                      fences := previous.fences)];
    }

    method RemoveWhole(bucket: Text)
      modifies this
      ensures View() == RemoveBucket(old(View()), bucket)
    {
      hide Replace;
      if bucket in buckets {
        Invalidate();
        stats := Replace(stats, buckets[bucket].stats, NO_STATS);
        buckets := buckets - {bucket};
      }
    }

    /** The loop's prefix is always the page function of the rows it has seen. */
    method SyncListing(bucket: Text, generation: u64, rows: seq<Listed>) returns (found: Option<nat>)
      modifies this
      ensures View() == ListPage(old(View()), bucket, generation, rows)
      ensures found == if Rebuilding(BucketOf(old(View()), bucket), generation) then Some(|rows|) else None
    {
      hide InsertRow, Utf8, Invalidated;
      SameBuckets(View(), None, bucket, Delta.Noop, true);
      Invalidate();
      ghost var s1 := View();
      var b := if bucket in buckets then buckets[bucket] else EMPTY_BUCKET;
      buckets := buckets[bucket := b];
      if b.generation != generation || b.rebuild != Some(generation) {
        return None;
      }
      for i := 0 to |rows|
        invariant Cell(b, stats) == ListRows(CellOf(s1, bucket), rows[..i])
        invariant buckets == s1.buckets[bucket := BucketOf(s1, bucket)] && capture == s1.capture && cuts == s1.cuts
      {
        assert rows[..i + 1][..i] == rows[..i];
        var (key, entry) := (rows[i].key, rows[i].entry);
        var ts := entry.lastModified;
        if && key !in b.touched
           && key !in b.fences
           && (key !in b.gone.rows || b.gone.rows[key] < ts)
           && (key !in b.keys.rows || b.keys.rows[key].lastModified <= ts)
        {
          b := Insert(b, key, entry);
        }
      }
      assert rows[..|rows|] == rows;
      buckets := buckets[bucket := b];
      return Some(|rows|);
    }

    method FinishBucketSync(bucket: Text, generation: u64) returns (finished: bool)
      modifies this
      ensures View() == Finish(old(View()), bucket, generation)
      ensures finished == FinishAccepted(old(View()), bucket, generation)
    {
      var b := if bucket in buckets then buckets[bucket] else EMPTY_BUCKET;
      finished := b.generation == generation && b.rebuild == Some(generation);
      if finished {
        b := b.(synced := true);
        b := b.(rebuild := None);
        b := b.(touched := {});
      }
      buckets := buckets[bucket := b];
    }

    /** Discard bucket after bucket, the totals following each in turn. */
    method DiscardAll()
      modifies this
      ensures View() == DiscardBuckets(old(View()))
    {
      hide Replace, Sorted, Utf8, Ascending, Discarded, DiscardSome;
      Invalidate();
      ghost var s1 := View();
      var names := Sorted(buckets.Keys);
      SortedAscends(buckets.Keys);
      DiscardNone(buckets);
      for i := 0 to |names|
        invariant capture == s1.capture && cuts == s1.cuts
        invariant stats == StatsWithout(s1.stats, s1.buckets, names[..i])
        invariant buckets == DiscardSome(s1.buckets, names[..i])
      {
        assert names[..i + 1][..i] == names[..i] && names[..i + 1] == names[..i] + [names[i]] && names[i] in names;
        OnlyOnce(names, i);
        DiscardNext(s1.buckets, names[..i], names[i]);
        var previous := buckets[names[i]];
        stats := Replace(stats, previous.stats, NO_STATS);
        var emptied := Emptied(previous);
        buckets := buckets[names[i] := emptied];
      }
      assert names[..|names|] == names;
      DiscardEvery(s1.buckets, names);
    }

    lemma DiscardNone(m: map<Text, Bucket>)
      ensures DiscardSome(m, []) == m
    {}

    lemma DiscardEvery(m: map<Text, Bucket>, names: seq<Text>)
      requires forall name :: name in m ==> name in names
      ensures DiscardSome(m, names) == map name | name in m :: Discarded(m[name])
    {
      hide Discarded, Utf8;
    }

    method Emptied(previous: Bucket) returns (b: Bucket)
      ensures b == Discarded(previous)
    {
      b := EMPTY_BUCKET.(generation := NextGeneration(previous.generation), epoch := previous.epoch,
                         fences := previous.fences);
    }

    lemma OnlyOnce(names: seq<Text>, i: nat)
      requires Ascending(names) && i < |names|
      ensures names[i] !in names[..i]
    {
      hide Utf8;
      if names[i] in names[..i] {
        var j :| 0 <= j < i && names[..i][j] == names[i];
        assert Less(names[j], names[i]);
        LessIrreflexive(names[i]);
      }
    }

    // ----- native writers -----

    /** A delivered feed gap: move the writer past it and serve everything from the origin. */
    method RemediateGap(missed: NativeCut)
      modifies this
      ensures View() == DiscardForGap(old(View()), missed)
    {
      hide DiscardBuckets;
      if missed.writer in cuts {
        var at := cuts[missed.writer];
        if missed.epoch > at.epoch || (missed.epoch == at.epoch && missed.sequence > at.sequence) {
          cuts := cuts[missed.writer := Position(missed.epoch, missed.sequence)];
          Invalidate();
        }
      }
      DiscardAll();
    }

    method RegisterNativeWriter(cut: NativeCut)
      modifies this`cuts, this`capture
      ensures View() == Register(old(View()), cut)
    {
      if |cut.writer| == 0 || |cut.writer| > MAX_NATIVE_ID_BYTES || cut.epoch == 0 || cut.writer in cuts {
        return;
      }
      if |cuts| < MAX_NATIVE_WRITERS {
        cuts := cuts[cut.writer := Position(cut.epoch, cut.sequence)];
      }
      Invalidate();
    }

    method NoteNativeSeal(cut: NativeCut, admitted: bool)
      modifies this`cuts, this`capture
      ensures View() == Seal(old(View()), cut, admitted)
    {
      hide Duplicate, Noted, Journaled;
      var unseen := NoteNativeCut(cut);
      if unseen {
        JournalNoop(Some(cut), admitted);
      }
    }

    method RenewNativeWriter(sealed: NativeCut, epoch: u64, admitted: bool)
      modifies this`cuts, this`capture
      ensures View() == Renew(old(View()), sealed, epoch, admitted)
    {
      hide Delta.EncodeDelta;
      if sealed.writer !in cuts || epoch <= cuts[sealed.writer].epoch {
        return;
      }
      var renewable := cuts[sealed.writer] == Position(sealed.epoch, sealed.sequence);
      cuts := cuts[sealed.writer := Position(epoch, 0)];
      if capture.None? {
        return;
      }
      if !renewable {
        Invalidate();
        return;
      }
      var c := capture.value;
      var effect := Delta.EncodeDelta(Delta.Noop, c.maxEvent, c.maxName);
      if effect.None? {
        Invalidate();
      } else {
        Append(Record(Renewal(sealed, epoch), effect.value), admitted);
      }
    }

    // ----- captures -----

    /** Built bucket by bucket over a universe that names them all. */
    method SnapshotState(universe: seq<Text>) returns (image: map<Text, Bucket>)
      requires forall name :: name in universe <==> name in buckets
      ensures image == Snapshot(buckets)
    {
      hide SnapshotBucket, Utf8;
      image := map[];
      for i := 0 to |universe|
        invariant forall name :: name in image <==> name in universe[..i]
        invariant forall name :: name in image ==> name in buckets && image[name] == SnapshotBucket(buckets[name])
      {
        assert universe[..i + 1] == universe[..i] + [universe[i]] && universe[i] in universe;
        image := image[universe[i] := SnapshotBucket(buckets[universe[i]])];
      }
      assert universe[..|universe|] == universe;
    }

    /** Size the image from the tallies, snapshot it, and attach a fresh journal at C. */
    method BeginFleetCapture(universe: seq<Text>, caps: Caps, maxEvent: nat, admitted: bool) returns (begun: bool)
      modifies this
      ensures View() == BeginCapture(old(View()), universe, caps, maxEvent, admitted)
      ensures begun <==> Sizable(old(buckets), universe, caps) && admitted
    {
      hide Tallied, Ascending, Ready, ValidCaps, Snapshot, Utf8;
      var size := ImageSizes.TalliedSize(buckets, universe, caps);
      if size.Err? || !admitted {
        return false;
      }
      UniverseIsAll(buckets, universe);
      var image := SnapshotState(universe);
      capture := Some(Capture(true, [], 0, maxEvent, caps.names, image, cuts));
      return true;
    }

    // ----- installs -----

    /** The candidate's buckets under this index's history: the next generation, its open
        fences and the epoch later ones draw from. Nothing when a generation is exhausted. */
    method Adopt(peer: Stage, universe: seq<Text>) returns (adopted: Option<Decoded>)
      requires forall name :: name in universe ==> name in peer.buckets
      requires forall name :: name in peer.buckets ==> name in universe
      requires forall name :: name in buckets ==> name in universe
      requires Ascending(universe)
      ensures adopted.Some? <==> forall name :: name in buckets ==> buckets[name].generation + 1 < U64_LIMIT
      ensures adopted.Some? ==> adopted.value == AdoptAll(View(), peer)
    {
      hide Utf8, Ascending, Adopted;
      ghost var live := View();
      var held := peer.buckets;
      for i := 0 to |universe|
        invariant held.Keys == peer.buckets.Keys
        invariant forall name :: name in universe[..i] && name in buckets ==> buckets[name].generation + 1 < U64_LIMIT
        invariant forall name :: name in held ==>
          held[name] == if name in universe[..i] then Adopted(live, name, peer.buckets[name]) else peer.buckets[name]
      {
        OnlyOnce(universe, i);
        assert universe[..i + 1] == universe[..i] + [universe[i]] && universe[i] in universe;
        var name := universe[i];
        if name in buckets && buckets[name].generation + 1 >= U64_LIMIT {
          return None;
        }
        var b := AdoptBucket(held[name], name);
        held := held[name := b];
      }
      assert universe[..|universe|] == universe;
      assert held == AdoptAll(live, peer).buckets;
      return Some(Decoded(held, peer.stats));
    }

    method AdoptBucket(b: Bucket, name: Text) returns (r: Bucket)
      requires name in buckets ==> buckets[name].generation + 1 < U64_LIMIT
      ensures r == Adopted(View(), name, b)
    {
      r := b.(generation := if name in buckets then buckets[name].generation + 1 else 1);
      if name in buckets {
        r := r.(epoch := buckets[name].epoch);
        r := r.(fences := buckets[name].fences);
      }
    }

    /** Check a staged candidate and swap it in, carrying what it does not cover. */
    method InstallFleetCandidate(peer: Stage, aligned: bool, universe: seq<Text>, maxRows: nat)
      returns (installed: bool)
      modifies this
      ensures View() == InstallStage(old(View()), peer, aligned, universe, maxRows)
      ensures installed <==> Installable(old(View()), peer, aligned, universe, maxRows)
    {
      hide Utf8, Carried, CarryOf, ApplyEffects, Chosen, AdoptAll, Orderable, RowTotal, Sorted, Ascending;
      var live := Index(buckets, stats, capture, cuts);
      var carry := CheckCandidate(live, peer, aligned, universe, maxRows);
      if carry.Err? {
        return false;
      }
      UniverseIsAll(peer.buckets, universe);
      var candidate := Adopt(peer, universe);
      if candidate.None? {
        return false;
      }
      CarriedIs(live, peer, universe);
      var d := ApplyCarry(candidate.value, carry.value);
      buckets, stats, capture := d.buckets, d.stats, None;
      return true;
    }
  }
}
