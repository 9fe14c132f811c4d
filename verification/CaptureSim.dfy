/** The donor capture: while its journal is valid, the image at C plus the journaled
    effects, decoded and applied in order, is exactly the live index without Content-Type
    and user metadata (src/index/fleet.rs, src/index/fleet/delta.rs). */
module CaptureSim {
  import opened Base
  import opened Ordered
  import opened Entries
  import opened Rows
  import opened Wire
  import opened Buckets
  import opened Image
  import opened ImageCodec
  import opened ImageRoundTrip
  import opened Index
  import opened Install
  import opened InstallSafety
  import opened Machine
  import opened Soundness
  import opened Reachable
  import Delta

  // ----- replay -----

  /** `IndexDelta::apply` on a private stage. */
  function ApplyDelta(buckets: map<Text, Bucket>, d: Delta.Delta): map<Text, Bucket> {
    match d
    case Noop => buckets
    case Put(name, key, e) => buckets[name := PutCell(Cell(BucketAt(buckets, name), NO_STATS), key, e, true).bucket]
    case Delete(name, key, at) =>
      buckets[name := DelCell(Cell(BucketAt(buckets, name), NO_STATS), key, at, false).bucket]
  }

  /** Decode each journaled effect under the follower's budget and apply it, in order. */
  function Replay(base: map<Text, Bucket>, journal: seq<Record>, maxEvent: nat, cap: nat,
                  budget: nat): Result<map<Text, Bucket>, ImageError> {
    if journal == [] then Ok(base) else
    var before :- Replay(base, journal[..|journal| - 1], maxEvent, cap, budget);
    var d :- Delta.DecodeDelta(journal[|journal| - 1].effect, maxEvent, cap, budget);
    Ok(ApplyDelta(before, d))
  }

  // ----- the simulation relation -----

  /** A replayed bucket holds the live one's rows, as skeletons, and its tombstones. */
  ghost predicate Echoes(d: Bucket, b: Bucket) {
    && d.keys.rows == SkeletonMap(b.keys.rows)
    && d.gone.rows == b.gone.rows
    && d.rebuild == None
  }

  ghost predicate AllEcho(base: map<Text, Bucket>, s: Index) {
    forall name :: Echoes(BucketAt(base, name), BucketOf(s, name))
  }

  /** Nothing a key effect cannot express is under way. */
  ghost predicate Calm(s: Index) {
    forall name :: name in s.buckets ==> s.buckets[name].rebuild == None && s.buckets[name].fences == map[]
  }

  /** A stage that mirrors the image, bucket for bucket. */
  ghost predicate MirrorsImage(base: map<Text, Bucket>, image: map<Text, Bucket>) {
    base.Keys == image.Keys && forall name :: name in image ==> Mirrors(base[name], image[name])
  }

  predicate Donating(s: Index) { s.capture.Some? && s.capture.value.valid }

  ghost predicate Simulates(s: Index, base: map<Text, Bucket>, budget: nat) {
    Donating(s) ==>
      var c := s.capture.value;
      && Calm(s)
      && (MirrorsImage(base, c.image) ==>
            var r := Replay(base, c.journal, c.maxEvent, c.maxName, budget);
            r.Ok? ==> AllEcho(r.value, s))
  }

  // ----- one bucket -----

  lemma SkeletonMapInsert(rows: map<Text, Entry>, k: Text, e: Entry)
    ensures SkeletonMap(rows[k := e]) == SkeletonMap(rows)[k := Skeleton(e)]
    ensures SkeletonMap(rows - {k}) == SkeletonMap(rows) - {k}
  {
    hide Skeleton, Utf8;
  }

  lemma EchoPut(d: Cell, b: Cell, key: Text, e: Entry, definitive: bool)
    requires Echoes(d.bucket, b.bucket) && b.bucket.rebuild == None && b.bucket.touched == {}
    requires PutAccepted(b.bucket, key, e.lastModified, definitive)
    ensures Echoes(PutCell(d, key, Skeleton(e), true).bucket, PutCell(b, key, e, definitive).bucket)
  {
    hide AddTally, SubTally, EntryTally, Replace, Utf8;
    SkeletonMapInsert(b.bucket.keys.rows, key, e);
  }

  lemma EchoComplete(d: Cell, b: Cell, key: Text, f: Fill)
    requires Echoes(d.bucket, b.bucket) && Exclusive(b.bucket)
    requires CompletionOf(b.bucket, key, f).Completed?
    ensures var filled := CompleteCell(b, key, f).bucket;
      Echoes(PutCell(d, key, Skeleton(filled.keys.rows[key]), true).bucket, filled)
  {
    hide AddTally, SubTally, EntryTally, Replace, Utf8;
    SkeletonMapInsert(b.bucket.keys.rows, key, Filled(b.bucket.keys.rows[key], f));
  }

  lemma EchoRaise(d: GoneRows, b: GoneRows, key: Text, ts: Time)
    requires d.rows == b.rows
    ensures GoneRaise(d, key, ts).rows == GoneRaise(b, key, ts).rows
    ensures key in GoneRaise(b, key, ts).rows && ts <= GoneRaise(b, key, ts).rows[key]
    ensures GoneRaise(d, key, GoneRaise(b, key, ts).rows[key]).rows == GoneRaise(b, key, ts).rows
  {
    hide AddTally, GoneTally, Lower;
  }

  lemma EchoRejectedDel(d: Cell, b: Cell, key: Text, ts: Time)
    requires Echoes(d.bucket, b.bucket) && Exclusive(b.bucket) && b.bucket.rebuild == None
    requires !DelAccepted(b.bucket, key, ts)
    ensures var after := DelCell(b, key, ts, false).bucket;
      && key in after.gone.rows && RowOf(after, key) == RowOf(b.bucket, key)
      && (if TombOf(after, key) != TombOf(b.bucket, key)
          then Echoes(DelCell(d, key, after.gone.rows[key], false).bucket, after)
          else Echoes(d.bucket, after))
  {
    hide Replace, Utf8;
    EchoRaise(d.bucket.gone, b.bucket.gone, key, ts);
    if NewerRow(b.bucket, key, ts) {
      if TombOf(DelCell(b, key, ts, false).bucket, key) == TombOf(b.bucket, key) {
        assert GoneRaise(b.bucket.gone, key, ts).rows == b.bucket.gone.rows by { hide AddTally, GoneTally, Lower; }
      }
      hide GoneRaise;
    } else {
      assert GoneRaise(b.bucket.gone, key, ts) == b.bucket.gone;
    }
  }

  lemma EchoAcceptedDel(d: Cell, b: Cell, key: Text, ts: Time)
    requires Echoes(d.bucket, b.bucket) && b.bucket.rebuild == None
    requires DelAccepted(b.bucket, key, ts)
    ensures var after := DelCell(b, key, ts, false).bucket;
      && key in after.gone.rows && after.gone.rows[key] == ts
      && Echoes(DelCell(d, key, ts, false).bucket, after)
      && (TombOf(after, key) == TombOf(b.bucket, key) && RowOf(after, key) == RowOf(b.bucket, key) ==>
          Echoes(d.bucket, after))
  {
    hide Replace, Utf8, AddTally, SubTally, EntryTally, GoneTally, Lower;
    SkeletonMapInsert(b.bucket.keys.rows, key, BlankEntry(0));
    var after := DelCell(b, key, ts, false).bucket;
    assert after.keys.rows == b.bucket.keys.rows - {key};
    assert after.gone.rows == b.bucket.gone.rows[key := ts];
    assert DelCell(d, key, ts, false).bucket.keys.rows == d.bucket.keys.rows - {key};
    assert DelCell(d, key, ts, false).bucket.gone.rows == d.bucket.gone.rows[key := ts];
    assert DelCell(d, key, ts, false).bucket.rebuild == None;
    hide DelCell, SkeletonMap;
  }

  lemma EchoDel(d: Cell, b: Cell, key: Text, ts: Time)
    requires Echoes(d.bucket, b.bucket) && Exclusive(b.bucket) && b.bucket.rebuild == None
    ensures var after := DelCell(b, key, ts, false).bucket;
      && key in after.gone.rows
      && (if TombOf(after, key) != TombOf(b.bucket, key) || RowOf(after, key) != RowOf(b.bucket, key)
          then Echoes(DelCell(d, key, after.gone.rows[key], false).bucket, after)
          else Echoes(d.bucket, after))
  {
    hide DelCell, Echoes, DelAccepted;
    if DelAccepted(b.bucket, key, ts) { EchoAcceptedDel(d, b, key, ts); } else { EchoRejectedDel(d, b, key, ts); }
  }

  // ----- the journal -----

  /** A capture still valid after recording an effect has appended exactly its encoding. */
  lemma RecordedIs(c: Capture, id: Option<NativeCut>, d: Delta.Delta, admitted: bool)
    requires Recorded(c, id, d, admitted).valid
    ensures var r := Recorded(c, id, d, admitted);
      && c.valid
      && Delta.EncodeDelta(d, c.maxEvent, c.maxName).Some?
      && r == c.(nextLocal := r.nextLocal, journal := r.journal)
      && |r.journal| == |c.journal| + 1 && r.journal[..|c.journal|] == c.journal
      && r.journal[|c.journal|].effect == Delta.EncodeDelta(d, c.maxEvent, c.maxName).value
      && (id.Some? ==> r.journal[|c.journal|].id == Native(id.value))
      && (id.None? ==> r.journal[|c.journal|].id.Local?)
  {
    hide Delta.EncodeDelta;
  }

  lemma ReplayNext(base: map<Text, Bucket>, c: Capture, r: Capture, d: Delta.Delta, budget: nat)
    requires |r.journal| == |c.journal| + 1 && r.journal[..|c.journal|] == c.journal
    requires r.maxEvent == c.maxEvent && r.maxName == c.maxName
    requires Delta.EncodeDelta(d, c.maxEvent, c.maxName) == Some(r.journal[|c.journal|].effect)
    requires Replay(base, r.journal, r.maxEvent, r.maxName, budget).Ok?
    ensures Replay(base, c.journal, c.maxEvent, c.maxName, budget).Ok?
    ensures Replay(base, r.journal, r.maxEvent, r.maxName, budget).value ==
            ApplyDelta(Replay(base, c.journal, c.maxEvent, c.maxName, budget).value, Delta.Skeletal(d))
  {
    hide Delta.EncodeDelta, Delta.DecodeDelta, ApplyDelta, Delta.Skeletal;
    Delta.DeltaRoundTrip(d, c.maxEvent, c.maxName, budget);
  }

  lemma EchoSet(base: map<Text, Bucket>, s: Index, t: Index, name: Text, d: Bucket, b: Bucket)
    requires AllEcho(base, s) && Echoes(d, b) && t.buckets == s.buckets[name := b]
    ensures AllEcho(base[name := d], t)
  {
    hide Echoes;
    forall n ensures Echoes(BucketAt(base[name := d], n), BucketOf(t, n)) {
      assert Echoes(BucketAt(base, n), BucketOf(s, n));
    }
  }

  lemma EchoSame(base: map<Text, Bucket>, s: Index, t: Index, name: Text, b: Bucket)
    requires AllEcho(base, s) && Echoes(BucketAt(base, name), b) && t.buckets == s.buckets[name := b]
    ensures AllEcho(base, t)
  {
    hide Echoes;
    forall n ensures Echoes(BucketAt(base, n), BucketOf(t, n)) {
      assert Echoes(BucketAt(base, n), BucketOf(s, n));
    }
  }

  /** A capture valid after noting a cut or opening a bucket is the capture before. */
  lemma StillDonating(s: Index, id: Option<NativeCut>, name: Text)
    requires Donating(Opened(NotedIf(s, id), name))
    ensures Donating(s) && Opened(NotedIf(s, id), name).capture == s.capture
    ensures name in s.buckets && Opened(NotedIf(s, id), name).buckets == s.buckets
    ensures id.Some? ==> WellFormed(id.value) && Contiguous(s, id.value)
    ensures Opened(NotedIf(s, id), name).cuts ==
            if id.Some? then s.cuts[id.value.writer := Position(id.value.epoch, id.value.sequence)] else s.cuts
  {}

  lemma CalmSet(s: Index, t: Index, name: Text, b: Bucket)
    requires Calm(s) && t.buckets == s.buckets[name := b] && b.rebuild == None && b.fences == map[]
    ensures Calm(t)
  {}

  /** One bucket changed by an effect that was journaled: the simulation follows it. */
  lemma JournaledSimulates(s: Index, t: Index, r: Index, id: Option<NativeCut>, d: Delta.Delta, admitted: bool,
                           base: map<Text, Bucket>, budget: nat, name: Text, b: Bucket)
    requires Simulates(s, base, budget)
    requires t.capture == s.capture && t.buckets == s.buckets[name := b]
    requires r == Journaled(t, id, d, admitted) && Donating(r)
    requires Donating(s) ==> b.rebuild == None && b.fences == map[]
    requires d.Noop? || d.bucket == name
    requires forall x: map<Text, Bucket> {:trigger ApplyDelta(x, Delta.Skeletal(d))} ::
               AllEcho(x, s) ==> Echoes(BucketAt(ApplyDelta(x, Delta.Skeletal(d)), name), b)
    ensures Simulates(r, base, budget)
  {
    var (c, c') := (s.capture.value, r.capture.value);
    assert c' == Recorded(c, id, d, admitted) by { hide Recorded; }
    RecordedIs(c, id, d, admitted);
    CalmSet(s, r, name, b);
    if MirrorsImage(base, c'.image) && Replay(base, c'.journal, c'.maxEvent, c'.maxName, budget).Ok? {
      hide Replay, Delta.EncodeDelta, Recorded, Mirrors, Echoes, Journaled;
      ReplayNext(base, c, c', d, budget);
      var x := Replay(base, c.journal, c.maxEvent, c.maxName, budget).value;
      var y := ApplyDelta(x, Delta.Skeletal(d));
      assert Echoes(BucketAt(y, name), b);
      if d.Noop? {
        EchoSame(x, s, r, name, b);
      } else {
        EchoSet(x, s, r, name, y[name], b);
        assert y == x[name := y[name]];
      }
    }
  }

  /** An event without an effect of its own: recorded as a no-op, or not at all. */
  lemma NoopSimulates(s: Index, t: Index, id: Option<NativeCut>, admitted: bool, base: map<Text, Bucket>, budget: nat,
                      name: Text)
    requires Simulates(s, base, budget)
    requires t.capture == s.capture && t.buckets == s.buckets && name in s.buckets
    ensures Simulates(JournaledNoop(t, id, admitted), base, budget)
  {
    var r := JournaledNoop(t, id, admitted);
    if Donating(r) {
      if id.Some? {
        var b := s.buckets[name];
        assert t.buckets == s.buckets[name := b];
        assert Donating(s) by { RecordedIs(t.capture.value, id, Delta.Noop, admitted); }
        forall x: map<Text, Bucket> {:trigger ApplyDelta(x, Delta.Skeletal(Delta.Noop))} | AllEcho(x, s)
          ensures Echoes(BucketAt(ApplyDelta(x, Delta.Skeletal(Delta.Noop)), name), b)
        {
          assert Echoes(BucketAt(x, name), BucketOf(s, name));
        }
        hide Replay, Echoes, Recorded, Mirrors;
        JournaledSimulates(s, t, r, id, Delta.Noop, admitted, base, budget, name, b);
      } else {
        hide Replay, Echoes, Mirrors;
      }
    }
  }

  lemma QuietTouched(b: Bucket)
    requires Sound(b) && b.rebuild == None
    ensures b.touched == {} && Exclusive(b)
  {
    hide Tabled;
  }

  lemma PutLeavesCalm(c: Cell, key: Text, e: Entry, definitive: bool)
    requires c.bucket.rebuild == None && c.bucket.fences == map[]
    ensures var b := PutCell(c, key, e, definitive).bucket; b.rebuild == None && b.fences == map[]
  {
    hide KeyInsert, Replace;
  }

  lemma AcceptedPutSimulates(s: Index, t: Index, r: Index, name: Text, key: Text, e: Entry, definitive: bool,
                             id: Option<NativeCut>, admitted: bool, base: map<Text, Bucket>, budget: nat, c: Cell)
    requires Simulates(s, base, budget) && Donating(s) && name in s.buckets
    requires c.bucket == s.buckets[name] && c.bucket.touched == {}
    requires t.capture == s.capture && t.buckets == s.buckets[name := PutCell(c, key, e, definitive).bucket]
    requires r == Journaled(t, id, Delta.Put(name, key, e), admitted) && Donating(r)
    requires PutAccepted(c.bucket, key, e.lastModified, definitive)
    ensures Simulates(r, base, budget)
  {
    hide Replay, Mirrors, Echoes, Recorded, PutCell, PutAccepted;
    var d := Delta.Put(name, key, e);
    var b := PutCell(c, key, e, definitive).bucket;
    PutLeavesCalm(c, key, e, definitive);
    forall x: map<Text, Bucket> {:trigger ApplyDelta(x, Delta.Skeletal(d))} | AllEcho(x, s)
      ensures Echoes(BucketAt(ApplyDelta(x, Delta.Skeletal(d)), name), b)
    {
      assert Echoes(BucketAt(x, name), BucketOf(s, name));
      EchoPut(Cell(BucketAt(x, name), NO_STATS), c, key, e, definitive);
    }
    JournaledSimulates(s, t, r, id, d, admitted, base, budget, name, b);
  }

  lemma PutSimulates(s: Index, name: Text, key: Text, e: Entry, definitive: bool, id: Option<NativeCut>, admitted: bool,
                     base: map<Text, Bucket>, budget: nat)
    requires AllSound(s.buckets) && Simulates(s, base, budget)
    ensures Simulates(Put(s, name, key, e, definitive, id, admitted), base, budget)
  {
    hide Sound, Simulates, Opened, NotedIf, Recorded, PutCell, PutAccepted, Duplicate, Journaled, JournaledNoop;
    var r := Put(s, name, key, e, definitive, id, admitted);
    if Suppressed(s, id) { return; }
    if !Donating(r) { NotDonating(r, base, budget); return; }
    var s1 := Opened(NotedIf(s, id), name);
    var c := CellOf(s1, name);
    var s2 := WithCell(s1, name, PutCell(c, key, e, definitive));
    DonatingBefore(s2, id, Delta.Put(name, key, e), admitted);
    StillDonating(s, id, name);
    CalmBucket(s, name, base, budget);
    if PutAccepted(c.bucket, key, e.lastModified, definitive) {
      AcceptedPutSimulates(s, s2, r, name, key, e, definitive, id, admitted, base, budget, c);
    } else {
      RejectedPut(c, key, e, definitive);
      assert s2.buckets == s.buckets;
      NoopSimulates(s, s2, id, admitted, base, budget, name);
    }
  }

  lemma NotDonating(s: Index, base: map<Text, Bucket>, budget: nat)
    requires !Donating(s)
    ensures Simulates(s, base, budget)
  {}

  lemma CalmBucket(s: Index, name: Text, base: map<Text, Bucket>, budget: nat)
    requires AllSound(s.buckets) && Simulates(s, base, budget) && Donating(s) && name in s.buckets
    ensures var b := s.buckets[name]; b.rebuild == None && b.fences == map[] && b.touched == {} && Exclusive(b)
  {
    hide Replay, Mirrors, Echoes;
    assert Sound(s.buckets[name]);
    QuietTouched(s.buckets[name]);
  }

  lemma DonatingBefore(t: Index, id: Option<NativeCut>, d: Delta.Delta, admitted: bool)
    ensures Donating(Journaled(t, id, d, admitted)) ==> Donating(t)
    ensures Donating(JournaledNoop(t, id, admitted)) ==> Donating(t)
  {
    hide Delta.EncodeDelta;
  }

  lemma DelLeavesCalm(c: Cell, key: Text, ts: Time)
    requires c.bucket.rebuild == None && c.bucket.fences == map[]
    ensures var b := DelCell(c, key, ts, false).bucket; b.rebuild == None && b.fences == map[]
  {
    hide KeyRemove, Replace, GoneRaise, NewerRow;
  }

  lemma ChangedDelSimulates(s: Index, t: Index, r: Index, name: Text, key: Text, ts: Time, id: Option<NativeCut>,
                            admitted: bool, base: map<Text, Bucket>, budget: nat, c: Cell)
    requires Simulates(s, base, budget) && Donating(s) && name in s.buckets
    requires c.bucket == s.buckets[name] && Exclusive(c.bucket)
    requires t.capture == s.capture && t.buckets == s.buckets[name := DelCell(c, key, ts, false).bucket]
    requires key in DelCell(c, key, ts, false).bucket.gone.rows
    requires r == Journaled(t, id, Delta.Delete(name, key, DelCell(c, key, ts, false).bucket.gone.rows[key]), admitted)
    requires Donating(r)
    requires var b := DelCell(c, key, ts, false).bucket;
      TombOf(b, key) != TombOf(c.bucket, key) || RowOf(b, key) != RowOf(c.bucket, key)
    ensures Simulates(r, base, budget)
  {
    hide Replay, Mirrors, Echoes, Recorded, DelCell;
    var b := DelCell(c, key, ts, false).bucket;
    var d := Delta.Delete(name, key, b.gone.rows[key]);
    DelLeavesCalm(c, key, ts);
    forall x: map<Text, Bucket> {:trigger ApplyDelta(x, Delta.Skeletal(d))} | AllEcho(x, s)
      ensures Echoes(BucketAt(ApplyDelta(x, Delta.Skeletal(d)), name), b)
    {
      assert Echoes(BucketAt(x, name), BucketOf(s, name));
      EchoDel(Cell(BucketAt(x, name), NO_STATS), c, key, ts);
    }
    JournaledSimulates(s, t, r, id, d, admitted, base, budget, name, b);
  }

  lemma DelSimulates(s: Index, name: Text, key: Text, ts: Time, sweep: bool, id: Option<NativeCut>, admitted: bool,
                     base: map<Text, Bucket>, budget: nat)
    requires AllSound(s.buckets) && Simulates(s, base, budget)
    ensures Simulates(Del(s, name, key, ts, sweep, id, admitted), base, budget)
  {
    hide Sound, Simulates, Opened, NotedIf, Recorded, DelCell, Duplicate, Journaled, JournaledNoop;
    var r := Del(s, name, key, ts, sweep, id, admitted);
    if Suppressed(s, id) { return; }
    if !Donating(r) { NotDonating(r, base, budget); return; }
    var s1 := Opened(NotedIf(s, id), name);
    var run := sweep && s1.capture.None?;
    var c := CellOf(s1, name);
    var s2 := WithCell(s1, name, DelCell(c, key, ts, run));
    var b := DelCell(c, key, ts, run).bucket;
    DonatingBefore(s2, id, Delta.Delete(name, key, b.gone.rows[key]), admitted);
    assert Donating(s1) && !run && Pruned(c.bucket, ts, run) == c.bucket;
    StillDonating(s, id, name);
    CalmBucket(s, name, base, budget);
    hide Pruned;
    if TombOf(b, key) != TombOf(c.bucket, key) || RowOf(b, key) != RowOf(c.bucket, key) {
      ChangedDelSimulates(s, s2, r, name, key, ts, id, admitted, base, budget, c);
    } else {
      SilentDel(s, s2, name, key, ts, c, base, budget);
      NoopSimulates(s2, s2, id, admitted, base, budget, name);
    }
  }

  /** A delete that changed neither its row nor its tombstone left the bucket's tables. */
  lemma SilentDel(s: Index, t: Index, name: Text, key: Text, ts: Time, c: Cell, base: map<Text, Bucket>, budget: nat)
    requires Simulates(s, base, budget) && Donating(s) && name in s.buckets
    requires c.bucket == s.buckets[name] && Exclusive(c.bucket)
    requires t.buckets == s.buckets[name := DelCell(c, key, ts, false).bucket] && t.capture == s.capture
    requires var b := DelCell(c, key, ts, false).bucket;
      TombOf(b, key) == TombOf(c.bucket, key) && RowOf(b, key) == RowOf(c.bucket, key)
    ensures Simulates(t, base, budget)
  {
    var b := DelCell(c, key, ts, false).bucket;
    DelLeavesCalm(c, key, ts);
    CalmSet(s, t, name, b);
    var p := s.capture.value;
    var r := Replay(base, p.journal, p.maxEvent, p.maxName, budget);
    hide Replay, Mirrors, DelCell;
    if MirrorsImage(base, p.image) && r.Ok? {
      hide Echoes;
      assert Echoes(BucketAt(r.value, name), BucketOf(s, name));
      EchoDel(Cell(BucketAt(r.value, name), NO_STATS), c, key, ts);
      EchoSame(r.value, s, t, name, b);
    }
  }

  lemma CompleteSimulates(s: Index, name: Text, key: Text, f: Fill, admitted: bool, base: map<Text, Bucket>,
                          budget: nat)
    requires AllSound(s.buckets) && Simulates(s, base, budget)
    ensures Simulates(Complete(s, name, key, f, admitted), base, budget)
  {
    var r := Complete(s, name, key, f, admitted);
    if name !in s.buckets || !CompletionOf(s.buckets[name], key, f).Completed? || !Donating(r) { return; }
    var c := CellOf(s, name);
    var b := CompleteCell(c, key, f).bucket;
    var t := WithCell(s, name, CompleteCell(c, key, f));
    var d := Delta.Put(name, key, b.keys.rows[key]);
    DonatingBefore(t, None, d, admitted);
    assert Sound(c.bucket);
    QuietTouched(c.bucket);
    hide Sound, Replay, Mirrors, Echoes, Recorded, KeyInsert;
    forall x: map<Text, Bucket> {:trigger ApplyDelta(x, Delta.Skeletal(d))} | AllEcho(x, s)
      ensures Echoes(BucketAt(ApplyDelta(x, Delta.Skeletal(d)), name), b)
    {
      assert Echoes(BucketAt(x, name), BucketOf(s, name));
      EchoComplete(Cell(BucketAt(x, name), NO_STATS), c, key, f);
    }
    hide PutCell;
    JournaledSimulates(s, t, r, None, d, admitted, base, budget, name, b);
  }

  // ----- every other operation -----

  /** Whether an operation does something one key effect cannot express. */
  predicate Disruptive(s: Index, op: Op) {
    match op
    case PutOp(b, _, _, _, id, _) => !Suppressed(s, id) && b !in s.buckets
    case DelOp(b, _, _, _, id, _) => !Suppressed(s, id) && b !in s.buckets
    case FenceOp(_, _, id, own) => own || !Suppressed(s, id)
    case ResyncOp(_) => true
    case RemoveOp(b) => b in s.buckets
    case ListOp(_, _, _) => true
    case DiscardOp(_) => true
    case RetireOp => true
    case _ => false
  }

  lemma NewBucketPutWithdraws(s: Index, name: Text, key: Text, e: Entry, definitive: bool, id: Option<NativeCut>,
                              admitted: bool)
    requires !Suppressed(s, id) && name !in s.buckets
    ensures !Donating(Put(s, name, key, e, definitive, id, admitted))
  {
    hide PutCell, PutAccepted, Journaled, JournaledNoop, Duplicate, NotedIf;
    var s1 := Opened(NotedIf(s, id), name);
    SameBuckets(s, id, name, Delta.Noop, admitted);
    var s2 := WithCell(s1, name, PutCell(CellOf(s1, name), key, e, definitive));
    DonatingBefore(s2, id, Delta.Put(name, key, e), admitted);
  }

  lemma NewBucketDelWithdraws(s: Index, name: Text, key: Text, at: Time, sweep: bool, id: Option<NativeCut>,
                              admitted: bool)
    requires !Suppressed(s, id) && name !in s.buckets
    ensures !Donating(Del(s, name, key, at, sweep, id, admitted))
  {
    hide DelCell, Journaled, JournaledNoop, Duplicate, NotedIf, Pruned;
    var s1 := Opened(NotedIf(s, id), name);
    SameBuckets(s, id, name, Delta.Noop, admitted);
    var run := sweep && s1.capture.None?;
    var s2 := WithCell(s1, name, DelCell(CellOf(s1, name), key, at, run));
    DonatingBefore(s2, id, Delta.Delete(name, key, BucketOf(s2, name).gone.rows[key]), admitted);
  }

  /** Fences, resyncs, removals, LIST pages, gaps and first sights of a bucket always
      withdraw an open capture. */
  lemma DisruptionWithdraws(s: Index, op: Op)
    requires Disruptive(s, op)
    ensures !Donating(Step(s, op))
  {
    hide Put, Del, NotedIf, Duplicate, Discarded, StatsWithout, Sorted, ListRows, Resynced, Replace, SkipGap;
    match op {
      case PutOp(b, k, e, definitive, id, admitted) => NewBucketPutWithdraws(s, b, k, e, definitive, id, admitted);
      case DelOp(b, k, at, sweep, id, admitted) => NewBucketDelWithdraws(s, b, k, at, sweep, id, admitted);
      case _ =>
    }
  }

  /** The one way a bucket appears without withdrawing the capture: a stale completion of a
      rebuild whose bucket is gone leaves an empty, unsynced bucket behind it. */
  lemma StaleFinishOpensBucket(s: Index, name: Text, generation: u64)
    requires Donating(s) && name !in s.buckets
    ensures var t := Step(s, FinishOp(name, generation));
      Donating(t) && t.capture == s.capture && t.buckets == s.buckets[name := EMPTY_BUCKET]
  {}

  lemma MutationKeepsNames(s: Index, op: Op)
    requires (op.PutOp? || op.DelOp?) && !Disruptive(s, op)
    ensures Step(s, op).buckets.Keys == s.buckets.Keys
  {
    hide PutCell, PutAccepted, DelCell, Pruned, Journaled, JournaledNoop, Duplicate, NotedIf, CellOf, Utf8;
    SameBuckets(s, op.id, op.bucket, Delta.Noop, op.admitted);
    match op {
      case PutOp(b, k, e, definitive, id, admitted) =>
        if !Suppressed(s, id) {
          var s1 := Opened(NotedIf(s, id), b);
          SameBuckets(WithCell(s1, b, PutCell(CellOf(s1, b), k, e, definitive)), id, b, Delta.Put(b, k, e), admitted);
        }
      case DelOp(b, k, at, sweep, id, admitted) =>
        if !Suppressed(s, id) {
          var s1 := Opened(NotedIf(s, id), b);
          var run := sweep && s1.capture.None?;
          var s2 := WithCell(s1, b, DelCell(CellOf(s1, b), k, at, run));
          SameBuckets(s2, id, b, Delta.Delete(b, k, BucketOf(s2, b).gone.rows[k]), admitted);
        }
    }
  }

  lemma OtherKeepsNames(s: Index, op: Op)
    requires !op.PutOp? && !op.DelOp? && !op.FinishOp? && !op.InstallOp? && !Disruptive(s, op)
    ensures Step(s, op).buckets.Keys == s.buckets.Keys
  {
    hide CompleteCell, CompletionOf, ResolveCell, Recorded, Duplicate, WellFormed, Contiguous, Image.Sizable,
         Image.Tallied, Utf8;
  }

  /** Any operation that opens a bucket withdraws an open capture, unless it is that one. */
  lemma NewBucketWithdraws(s: Index, op: Op, name: Text)
    requires Donating(s) && name !in s.buckets && name in Step(s, op).buckets
    ensures Donating(Step(s, op)) <==> op.FinishOp?
  {
    hide Put, Del, Complete, Fence, Resolve, ListPage, Resync, RemoveBucket, DiscardForGap, Register, Seal, Renew,
         BeginCapture, Retire, Suppressed, Staged, Installable, Carried, Utf8;
    if Disruptive(s, op) {
      DisruptionWithdraws(s, op);
    } else if op.PutOp? || op.DelOp? {
      MutationKeepsNames(s, op);
    } else if !op.FinishOp? && !op.InstallOp? {
      OtherKeepsNames(s, op);
    }
  }

  lemma SameSimulates(s: Index, t: Index, base: map<Text, Bucket>, budget: nat)
    requires Simulates(s, base, budget) && t.buckets == s.buckets && t.capture == s.capture
    ensures Simulates(t, base, budget)
  {
    hide Replay, Echoes, Mirrors;
  }

  lemma ResolveSimulates(s: Index, name: Text, key: Text, token: nat, truth: Authoritative, base: map<Text, Bucket>,
                         budget: nat)
    requires Simulates(s, base, budget)
    ensures Simulates(Resolve(s, name, key, token, truth), base, budget)
  {
    var t := Resolve(s, name, key, token, truth);
    if Donating(t) && name in s.buckets {
      assert Calm(s) by { hide Replay, Echoes, Mirrors; }
      assert !OwnsFence(s.buckets[name], key, token);
      assert t.buckets == s.buckets;
      SameSimulates(s, t, base, budget);
    }
    hide ResolveCell, Simulates;
    if !Donating(t) { NotDonating(t, base, budget); }
  }

  lemma FinishSimulates(s: Index, name: Text, generation: u64, base: map<Text, Bucket>, budget: nat)
    requires Simulates(s, base, budget)
    ensures Simulates(Finish(s, name, generation), base, budget)
  {
    var t := Finish(s, name, generation);
    if Donating(s) {
      assert Calm(s) by { hide Replay, Echoes, Mirrors; }
      var c := s.capture.value;
      var r := Replay(base, c.journal, c.maxEvent, c.maxName, budget);
      assert t.buckets == s.buckets[name := BucketOf(s, name)];
      hide Replay, Mirrors;
      if MirrorsImage(base, c.image) && r.Ok? {
        hide Echoes;
        assert Echoes(BucketAt(r.value, name), BucketOf(s, name));
        EchoSame(r.value, s, t, name, BucketOf(s, name));
      }
    }
  }

  lemma BeginSimulates(s: Index, universe: seq<Text>, caps: Caps, maxEvent: nat, admitted: bool,
                       base: map<Text, Bucket>, budget: nat)
    requires Simulates(s, base, budget)
    ensures Simulates(BeginCapture(s, universe, caps, maxEvent, admitted), base, budget)
  {
    var t := BeginCapture(s, universe, caps, maxEvent, admitted);
    if Sizable(s.buckets, universe, caps) && admitted {
      UniverseIsAll(s.buckets, universe);
      forall name | name in s.buckets ensures s.buckets[name].rebuild == None && s.buckets[name].fences == map[] {
        assert Ready(s.buckets[name]);
      }
      assert Calm(t);
      var c := t.capture.value;
      hide Sizable, Tallied, Calm;
      if MirrorsImage(base, c.image) {
        forall name ensures Echoes(BucketAt(base, name), BucketOf(t, name)) {
          if name in s.buckets { assert Mirrors(base[name], SnapshotBucket(s.buckets[name])); }
          hide KeysTallied, GoneTallied, FloorsHold;
        }
      }
    }
  }

  lemma RenewSimulates(s: Index, sealed: NativeCut, epoch: u64, admitted: bool, base: map<Text, Bucket>, budget: nat)
    requires Simulates(s, base, budget)
    ensures Simulates(Renew(s, sealed, epoch, admitted), base, budget)
  {
    var t := Renew(s, sealed, epoch, admitted);
    if Donating(t) && t.capture != s.capture {
      var (c, c') := (s.capture.value, t.capture.value);
      assert c' == RecordedRenewal(c, sealed, epoch, admitted);
      assert Delta.EncodeDelta(Delta.Noop, c.maxEvent, c.maxName).Some? && |c'.journal| == |c.journal| + 1
          && c'.journal[..|c.journal|] == c.journal && c' == c.(journal := c'.journal)
          && c'.journal[|c.journal|].effect == Delta.EncodeDelta(Delta.Noop, c.maxEvent, c.maxName).value
        by {
          hide Delta.EncodeDelta;
        }
      hide Delta.EncodeDelta, Replay, Mirrors, Echoes, RecordedRenewal;
      if MirrorsImage(base, c'.image) && Replay(base, c'.journal, c'.maxEvent, c'.maxName, budget).Ok? {
        ReplayNext(base, c, c', Delta.Noop, budget);
      }
    } else if Donating(t) {
      SameSimulates(s, t, base, budget);
    }
  }

  lemma SealSimulates(s: Index, cut: NativeCut, admitted: bool, base: map<Text, Bucket>, budget: nat)
    requires Simulates(s, base, budget)
    ensures Simulates(Seal(s, cut, admitted), base, budget)
  {
    hide Simulates, Journaled;
    var t := Seal(s, cut, admitted);
    if Duplicate(s, cut) { return; }
    if !Donating(t) { NotDonating(t, base, budget); return; }
    var n := Noted(s, cut);
    DonatingBefore(n, Some(cut), Delta.Noop, admitted);
    assert n.buckets == s.buckets && n.capture == s.capture;
    SealNoop(s, n, cut, admitted, base, budget);
  }

  lemma SealNoop(s: Index, n: Index, cut: NativeCut, admitted: bool, base: map<Text, Bucket>, budget: nat)
    requires Simulates(s, base, budget) && Donating(s) && n.buckets == s.buckets && n.capture == s.capture
    ensures Simulates(JournaledNoop(n, Some(cut), admitted), base, budget)
  {
    var r := JournaledNoop(n, Some(cut), admitted);
    if Donating(r) {
      var (c, c') := (s.capture.value, r.capture.value);
      assert c' == Recorded(c, Some(cut), Delta.Noop, admitted) by { hide Recorded; }
      RecordedIs(c, Some(cut), Delta.Noop, admitted);
      hide Delta.EncodeDelta, Replay, Mirrors, Echoes, Recorded;
      if MirrorsImage(base, c'.image) && Replay(base, c'.journal, c'.maxEvent, c'.maxName, budget).Ok? {
        ReplayNext(base, c, c', Delta.Noop, budget);
      }
    }
  }

  lemma InstallSimulates(s: Index, op: Op, base: map<Text, Bucket>, budget: nat)
    requires op.InstallOp? && Simulates(s, base, budget)
    ensures Simulates(Step(s, op), base, budget)
  {
    hide Simulates, Staged, Installable, Carried;
    if Donating(Step(s, op)) {
      assert Step(s, op) == s;
    } else {
      NotDonating(Step(s, op), base, budget);
    }
  }

  lemma StepSimulates(s: Index, op: Op, base: map<Text, Bucket>, budget: nat)
    requires AllSound(s.buckets) && Simulates(s, base, budget)
    ensures Simulates(Step(s, op), base, budget)
  {
    hide AllSound, Simulates, Put, Del, Complete, Fence, Resolve, ListPage, Resync, RemoveBucket, Finish, DiscardForGap,
         InstallImage, Register, Seal, Renew, BeginCapture, Retire, Disruptive;
    if Disruptive(s, op) {
      DisruptionWithdraws(s, op);
      NotDonating(Step(s, op), base, budget);
      return;
    }
    match op {
      case PutOp(b, k, e, definitive, id, admitted) => PutSimulates(s, b, k, e, definitive, id, admitted, base, budget);
      case DelOp(b, k, at, sweep, id, admitted) => DelSimulates(s, b, k, at, sweep, id, admitted, base, budget);
      case CompleteOp(b, k, fill, admitted) => CompleteSimulates(s, b, k, fill, admitted, base, budget);
      case ResolveOp(b, k, token, truth) => ResolveSimulates(s, b, k, token, truth, base, budget);
      case FinishOp(b, generation) => FinishSimulates(s, b, generation, base, budget);
      case SealOp(cut, admitted) => SealSimulates(s, cut, admitted, base, budget);
      case RenewOp(sealed, epoch, admitted) => RenewSimulates(s, sealed, epoch, admitted, base, budget);
      case CaptureOp(universe, caps, maxEvent, admitted) =>
        BeginSimulates(s, universe, caps, maxEvent, admitted, base, budget);
      case InstallOp(_, _, _, _, _) => InstallSimulates(s, op, base, budget);
      case _ => IdleSimulates(s, op, base, budget);
    }
  }

  /** What is left changes no bucket: a suppressed fence, the removal of a bucket the index
      does not hold, and a registration, which withdraws whenever it registers. */
  lemma IdleSimulates(s: Index, op: Op, base: map<Text, Bucket>, budget: nat)
    requires Simulates(s, base, budget) && !Disruptive(s, op)
    requires op.FenceOp? || op.ResyncOp? || op.RemoveOp? || op.ListOp? || op.DiscardOp?
        || op.RetireOp? || op.RegisterOp?
    ensures Simulates(Step(s, op), base, budget)
  {
    hide Simulates, Duplicate;
    if op.RegisterOp? {
      if Donating(Step(s, op)) { assert Step(s, op) == s; } else { NotDonating(Step(s, op), base, budget); }
    } else {
      assert Step(s, op) == s;
    }
  }

  /** In every run from an empty index, for every stage mirroring the image at C and every
      decode budget, replaying the journal gives exactly the live index. */
  lemma {:induction false} RunSimulates(ops: seq<Op>, base: map<Text, Bucket>, budget: nat)
    ensures Simulates(Run(EMPTY_INDEX, ops), base, budget)
  {
    hide AllSound, Simulates, Step;
    if ops == [] {
      NotDonating(EMPTY_INDEX, base, budget);
    } else {
      var before := ops[..|ops| - 1];
      RunSimulates(before, base, budget);
      ReachableSound(before);
      StepSimulates(Run(EMPTY_INDEX, before), ops[|ops| - 1], base, budget);
    }
  }
}
