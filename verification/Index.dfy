/** The whole index behind its one lock: buckets, totals, native feed cuts and the donor
    capture attached to it, with every operation that changes them (src/index.rs,
    src/index/fleet.rs, src/index/fleet/capture.rs). */
module Index {
  import opened Base
  import opened Ordered
  import opened Entries
  import opened Rows
  import opened Buckets
  import opened Image
  import Delta

  /** A position in one writer's feed. */
  datatype NativeCut = NativeCut(writer: seq<byte>, epoch: u64, sequence: u64)

  datatype Position = Position(epoch: u64, sequence: u64)

  /** What a journal record stands for: a native event, a sealed writer's renewal, or an
      effect of this node alone. */
  datatype Identity =
    | Native(cut: NativeCut)
    | Renewal(sealed: NativeCut, epoch: u64)
    | Local(serial: nat)

  datatype Record = Record(id: Identity, effect: seq<byte>)

  /** A donor capture: the image and cuts at C, and the journal since. `valid` falls when
      the journal is invalidated or refuses an append, and never rises again. */
  datatype Capture = Capture(
    valid: bool,
    journal: seq<Record>,
    nextLocal: nat,
    maxEvent: nat,
    maxName: nat,
    image: map<Text, Bucket>,
    cuts: map<seq<byte>, Position>)

  datatype Index = Index(
    buckets: map<Text, Bucket>,
    stats: Stats,
    capture: Option<Capture>,
    cuts: map<seq<byte>, Position>)

  const EMPTY_INDEX := Index(map[], NO_STATS, None, map[])

  function BucketAt(buckets: map<Text, Bucket>, name: Text): Bucket {
    if name in buckets then buckets[name] else EMPTY_BUCKET
  }

  function BucketOf(s: Index, name: Text): Bucket { BucketAt(s.buckets, name) }

  function CellOf(s: Index, name: Text): Cell { Cell(BucketOf(s, name), s.stats) }

  function WithCell(s: Index, name: Text, c: Cell): Index {
    s.(buckets := s.buckets[name := c.bucket], stats := c.total)
  }

  // ----- the journal -----

  function Spoiled(c: Capture): Capture { c.(valid := false) }

  function Invalidated(s: Index): Index {
    if s.capture.Some? then s.(capture := Some(Spoiled(s.capture.value))) else s
  }

  function Appended(c: Capture, r: Record, admitted: bool): Capture {
    if c.valid && admitted then c.(journal := c.journal + [r]) else Spoiled(c)
  }

  function Recorded(c: Capture, id: Option<NativeCut>, d: Delta.Delta, admitted: bool): Capture {
    match Delta.EncodeDelta(d, c.maxEvent, c.maxName)
    case None => Spoiled(c)
    case Some(effect) =>
      if id.Some? then Appended(c, Record(Native(id.value), effect), admitted)
      else if c.nextLocal + 1 >= U64_LIMIT then Spoiled(c)
      else Appended(c.(nextLocal := c.nextLocal + 1), Record(Local(c.nextLocal + 1), effect), admitted)
  }

  function Journaled(s: Index, id: Option<NativeCut>, d: Delta.Delta, admitted: bool): Index {
    if s.capture.Some? then s.(capture := Some(Recorded(s.capture.value, id, d, admitted))) else s
  }

  /** An event that changed nothing still advances its writer's coverage. */
  function JournaledNoop(s: Index, id: Option<NativeCut>, admitted: bool): Index {
    if id.Some? then Journaled(s, id, Delta.Noop, admitted) else s
  }

  // ----- native cuts -----

  const MAX_NATIVE_WRITERS: nat := 256
  const MAX_NATIVE_ID_BYTES: nat := 256

  predicate WellFormed(cut: NativeCut) {
    0 < |cut.writer| <= MAX_NATIVE_ID_BYTES && cut.epoch != 0 && cut.sequence != 0
  }

  predicate Duplicate(s: Index, cut: NativeCut) {
    && WellFormed(cut) && cut.writer in s.cuts
    && cut.epoch == s.cuts[cut.writer].epoch && cut.sequence <= s.cuts[cut.writer].sequence
  }

  predicate Contiguous(s: Index, cut: NativeCut) {
    && cut.writer in s.cuts
    && cut.epoch == s.cuts[cut.writer].epoch && cut.sequence == s.cuts[cut.writer].sequence + 1
  }

  /** The index after noting a cut that is not a duplicate. */
  function Noted(s: Index, cut: NativeCut): Index {
    if !WellFormed(cut) then Invalidated(s) else
    if cut.writer !in s.cuts && |s.cuts| >= MAX_NATIVE_WRITERS then Invalidated(s) else
    var moved := s.(cuts := s.cuts[cut.writer := Position(cut.epoch, cut.sequence)]);
    if Contiguous(s, cut) then moved else Invalidated(moved)
  }

  function NotedIf(s: Index, id: Option<NativeCut>): Index {
    if id.Some? then Noted(s, id.value) else s
  }

  predicate Suppressed(s: Index, id: Option<NativeCut>) { id.Some? && Duplicate(s, id.value) }

  // ----- mutations -----

  /** A bucket first seen now was not in any image already taken. */
  function Opened(s: Index, name: Text): Index {
    if name in s.buckets then s else Invalidated(s)
  }

  function Put(s: Index, name: Text, key: Text, e: Entry, definitive: bool, id: Option<NativeCut>,
               admitted: bool): Index {
    if Suppressed(s, id) then s else
    var s1 := Opened(NotedIf(s, id), name);
    var s2 := WithCell(s1, name, PutCell(CellOf(s1, name), key, e, definitive));
    if PutAccepted(BucketOf(s1, name), key, e.lastModified, definitive)
    then Journaled(s2, id, Delta.Put(name, key, e), admitted)
    else JournaledNoop(s2, id, admitted)
  }

  function TombOf(b: Bucket, key: Text): Option<Time> {
    if key in b.gone.rows then Some(b.gone.rows[key]) else None
  }

  function RowOf(b: Bucket, key: Text): Option<Entry> {
    if key in b.keys.rows then Some(b.keys.rows[key]) else None
  }

  function Del(s: Index, name: Text, key: Text, ts: Time, sweep: bool, id: Option<NativeCut>, admitted: bool): Index {
    if Suppressed(s, id) then s else
    var s1 := Opened(NotedIf(s, id), name);
    var run := sweep && s1.capture.None?;
    var before := Pruned(BucketOf(s1, name), ts, run);
    var s2 := WithCell(s1, name, DelCell(CellOf(s1, name), key, ts, run));
    var after := BucketOf(s2, name);
    if TombOf(after, key) != TombOf(before, key) || RowOf(after, key) != RowOf(before, key)
    then Journaled(s2, id, Delta.Delete(name, key, after.gone.rows[key]), admitted)
    else JournaledNoop(s2, id, admitted)
  }

  function Complete(s: Index, name: Text, key: Text, f: Fill, admitted: bool): Index {
    if name !in s.buckets || !CompletionOf(s.buckets[name], key, f).Completed? then s else
    var s1 := WithCell(s, name, CompleteCell(CellOf(s, name), key, f));
    Journaled(s1, None, Delta.Put(name, key, s1.buckets[name].keys.rows[key]), admitted)
  }

  // ----- fences -----

  function FenceKey(s: Index, name: Text, key: Text): Index {
    var s1 := Invalidated(s);
    s1.(buckets := s1.buckets[name := FenceBucket(BucketOf(s1, name), key)])
  }

  /** A peer's undescribable event fences its key unless it is a duplicate; this node's own
      always does. */
  function Fence(s: Index, name: Text, key: Text, id: Option<NativeCut>, own: bool): Index {
    if Suppressed(s, id) then (if own then FenceKey(s, name, key) else s)
    else FenceKey(NotedIf(s, id), name, key)
  }

  function Resolve(s: Index, name: Text, key: Text, token: nat, truth: Authoritative): Index {
    if name in s.buckets then WithCell(s, name, ResolveCell(CellOf(s, name), key, token, truth)) else s
  }

  // ----- rebuilds -----

  function Resync(s: Index, name: Text): Index {
    var s1 := Invalidated(s);
    var b := BucketOf(s1, name);
    WithCell(s1, name, Cell(Resynced(b), Replace(s1.stats, b.stats, NO_STATS)))
  }

  function RemoveBucket(s: Index, name: Text): Index {
    if name !in s.buckets then s else
    var s1 := Invalidated(s);
    s1.(buckets := s1.buckets - {name}, stats := Replace(s1.stats, s1.buckets[name].stats, NO_STATS))
  }

  function ListPage(s: Index, name: Text, generation: u64, rows: seq<Listed>): Index {
    var s1 := Invalidated(s);
    var c := CellOf(s1, name);
    WithCell(s1, name, if Rebuilding(c.bucket, generation) then ListRows(c, rows) else c)
  }

  predicate FinishAccepted(s: Index, name: Text, generation: u64) {
    Rebuilding(BucketOf(s, name), generation)
  }

  function Finish(s: Index, name: Text, generation: u64): Index {
    var b := BucketOf(s, name);
    s.(buckets := s.buckets[name := if Rebuilding(b, generation) then Finished(b) else b])
  }

  function Beyond(p: Position, q: Position): bool {
    p.epoch > q.epoch || (p.epoch == q.epoch && p.sequence > q.sequence)
  }

  function SkipGap(s: Index, missed: NativeCut): Index {
    var through := Position(missed.epoch, missed.sequence);
    if missed.writer !in s.cuts || !Beyond(through, s.cuts[missed.writer]) then s
    else Invalidated(s.(cuts := s.cuts[missed.writer := through]))
  }

  function StatsWithout(stats: Stats, buckets: map<Text, Bucket>, names: seq<Text>): Stats
    requires forall name :: name in names ==> name in buckets
  {
    if names == [] then stats else
      Replace(StatsWithout(stats, buckets, names[..|names| - 1]), buckets[names[|names| - 1]].stats, NO_STATS)
  }

  /** The buckets with those named so far discarded. */
  function DiscardSome(buckets: map<Text, Bucket>, names: seq<Text>): map<Text, Bucket> {
    map name | name in buckets :: if name in names then Discarded(buckets[name]) else buckets[name]
  }

  function DiscardBuckets(s: Index): Index {
    var s1 := Invalidated(s);
    s1.(buckets := map name | name in s1.buckets :: Discarded(s1.buckets[name]),
        stats := StatsWithout(s1.stats, s1.buckets, Sorted(s1.buckets.Keys)))
  }

  function DiscardForGap(s: Index, missed: NativeCut): Index { DiscardBuckets(SkipGap(s, missed)) }

  // ----- native writers -----

  function Register(s: Index, cut: NativeCut): Index {
    if |cut.writer| == 0 || |cut.writer| > MAX_NATIVE_ID_BYTES || cut.epoch == 0 || cut.writer in s.cuts then s else
    if |s.cuts| >= MAX_NATIVE_WRITERS then Invalidated(s)
    else Invalidated(s.(cuts := s.cuts[cut.writer := Position(cut.epoch, cut.sequence)]))
  }

  function Seal(s: Index, cut: NativeCut, admitted: bool): Index {
    if Duplicate(s, cut) then s else JournaledNoop(Noted(s, cut), Some(cut), admitted)
  }

  function RecordedRenewal(c: Capture, sealed: NativeCut, epoch: u64, admitted: bool): Capture {
    match Delta.EncodeDelta(Delta.Noop, c.maxEvent, c.maxName)
    case None => Spoiled(c)
    case Some(effect) => Appended(c, Record(Renewal(sealed, epoch), effect), admitted)
  }

  /** A writer renews only forward, and into its next life only from its seal. */
  function Renew(s: Index, sealed: NativeCut, epoch: u64, admitted: bool): Index {
    if sealed.writer !in s.cuts || epoch <= s.cuts[sealed.writer].epoch then s else
    var renewable := s.cuts[sealed.writer] == Position(sealed.epoch, sealed.sequence);
    var s1 := s.(cuts := s.cuts[sealed.writer := Position(epoch, 0)]);
    if s1.capture.None? then s1
    else if renewable then s1.(capture := Some(RecordedRenewal(s1.capture.value, sealed, epoch, admitted)))
    else Invalidated(s1)
  }

  // ----- captures -----

  function SnapshotBucket(b: Bucket): Bucket {
    EMPTY_BUCKET.(synced := true, keys := b.keys, gone := b.gone, stats := b.stats)
  }

  function Snapshot(buckets: map<Text, Bucket>): map<Text, Bucket> {
    map name | name in buckets :: SnapshotBucket(buckets[name])
  }

  /** Take the image and cuts at C and attach a fresh journal, replacing any other. */
  function BeginCapture(s: Index, universe: seq<Text>, caps: Caps, maxEvent: nat, admitted: bool): Index {
    if Sizable(s.buckets, universe, caps) && admitted
    then s.(capture := Some(Capture(true, [], 0, maxEvent, caps.names, Snapshot(s.buckets), s.cuts)))
    else s
  }

  function Retire(s: Index): Index { s.(capture := None) }
}
