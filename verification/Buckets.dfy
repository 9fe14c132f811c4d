/** One bucket of the index and every way an operation changes it (src/index.rs). */
module Buckets {
  import opened Base
  import opened Ordered
  import opened Entries
  import opened Rows

  /** Aggregate row count and known bytes, in saturating 64-bit arithmetic. */
  datatype Stats = Stats(objects: u64, bytes: u64)

  const NO_STATS := Stats(0, 0)

  function KnownBytes(e: Entry): u64 {
    if e.size.Some? && e.size.value >= 0 then e.size.value else 0
  }

  function StatsOf(e: Entry): Stats { Stats(1, KnownBytes(e)) }

  function SatSub(a: u64, b: u64): u64 { if b <= a then a - b else 0 }

  function SatAdd(a: u64, b: u64): u64 { if a + b < U64_LIMIT then a + b else U64_LIMIT - 1 }

  function Replace(s: Stats, previous: Stats, current: Stats): Stats {
    Stats(SatAdd(SatSub(s.objects, previous.objects), current.objects),
          SatAdd(SatSub(s.bytes, previous.bytes), current.bytes))
  }

  datatype Bucket = Bucket(
    synced: bool,
    keys: KeyRows,
    gone: GoneRows,
    /** The origin rebuild allowed to publish here; `rebuild` is it while it runs. */
    generation: u64,
    rebuild: Option<u64>,
    /** Keys definitively mutated or reconciled since the rebuild began. */
    touched: set<Text>,
    /** The last reconciliation token allocated, and the key each open one fences. */
    epoch: nat,
    fences: map<Text, nat>,
    stats: Stats)

  const EMPTY_BUCKET := Bucket(false, NO_KEYS, NO_GONE, 0, None, {}, 0, map[], NO_STATS)

  /** A bucket together with the whole-index totals accounted beside it. */
  datatype Cell = Cell(bucket: Bucket, total: Stats)

  function RowStats(b: Bucket, key: Text): Stats {
    if key in b.keys.rows then StatsOf(b.keys.rows[key]) else NO_STATS
  }

  function InsertRow(c: Cell, key: Text, e: Entry): Cell {
    var previous := RowStats(c.bucket, key);
    Cell(c.bucket.(keys := KeyInsert(c.bucket.keys, key, e), stats := Replace(c.bucket.stats, previous, StatsOf(e))),
         Replace(c.total, previous, StatsOf(e)))
  }

  function RemoveRow(c: Cell, key: Text): Cell {
    if key !in c.bucket.keys.rows then c else
      var previous := RowStats(c.bucket, key);
      Cell(c.bucket.(keys := KeyRemove(c.bucket.keys, key), stats := Replace(c.bucket.stats, previous, NO_STATS)),
           Replace(c.total, previous, NO_STATS))
  }

  // ----- puts -----

  /** The first definitive mutation of a key since its rebuild began outranks any row a
      LIST page put there. */
  predicate FirstMutation(b: Bucket, key: Text) { b.rebuild.Some? && key !in b.touched }

  predicate DeadSince(b: Bucket, key: Text, ts: Time) { key in b.gone.rows && b.gone.rows[key] >= ts }

  predicate NewerRow(b: Bucket, key: Text, ts: Time) { key in b.keys.rows && b.keys.rows[key].lastModified > ts }

  predicate PutAccepted(b: Bucket, key: Text, ts: Time, definitive: bool) {
    if definitive && FirstMutation(b, key) then true
    else !DeadSince(b, key, ts) && !NewerRow(b, key, ts) && (definitive || key !in b.touched)
  }

  /** A definitive mutation owns its key: it closes the fence and marks the rebuild. */
  function Settle(b: Bucket, key: Text): Bucket {
    b.(fences := b.fences - {key}, touched := if b.rebuild.Some? then b.touched + {key} else b.touched)
  }

  function PutCell(c: Cell, key: Text, e: Entry, definitive: bool): Cell {
    var b := c.bucket;
    if !PutAccepted(b, key, e.lastModified, definitive) then c else
    if !definitive then InsertRow(c, key, e) else
    var cleared := if FirstMutation(b, key) then b.(gone := GoneRemove(b.gone, key)) else b;
    InsertRow(Cell(Settle(cleared, key), c.total), key, e)
  }

  // ----- deletes -----

  const TOMBSTONE_TTL: int := 3_600_000_000_000
  const TOMBSTONE_PRUNE_LEN: nat := 65_536

  function Pruned(b: Bucket, ts: Time, sweep: bool): Bucket {
    var cutoff := ts - TOMBSTONE_TTL;
    if sweep && |b.gone.rows| > TOMBSTONE_PRUNE_LEN && cutoff >= -9_223_372_036_854_775_808_000_000_000
    then b.(gone := Sweep(b.gone, cutoff)) else b
  }

  predicate DelAccepted(b: Bucket, key: Text, ts: Time) {
    || FirstMutation(b, key)
    || (!NewerRow(b, key, ts) && !(key in b.gone.rows && b.gone.rows[key] > ts))
  }

  function Entombed(b: Bucket, key: Text, ts: Time): Bucket {
    b.(gone := if FirstMutation(b, key) then GoneInsert(b.gone, key, ts) else GoneRaise(b.gone, key, ts))
  }

  function DelCell(c: Cell, key: Text, ts: Time, sweep: bool): (r: Cell)
    ensures key in r.bucket.gone.rows
  {
    var b := Pruned(c.bucket, ts, sweep);
    var dead := Entombed(b, key, ts);
    if !DelAccepted(b, key, ts) then Cell(dead, c.total)
    else RemoveRow(Cell(Settle(dead, key), c.total), key)
  }

  // ----- completions -----

  datatype Fill = Fill(size: Option<i64>, etag: Option<ETag>, contentType: Option<Text>, meta: Meta)

  datatype Completion = NotIndexed | AlreadyComplete | Completed | OtherVersion

  predicate SameVersion(e: Entry, f: Fill) {
    && (e.etag.Some? ==> f.etag == e.etag)
    && (e.size.None? || f.size.None? || e.size == f.size)
  }

  function Or<T>(a: Option<T>, b: Option<T>): Option<T> { if a.Some? then a else b }

  function Filled(e: Entry, f: Fill): Entry {
    e.(size := Or(e.size, f.size), etag := Or(e.etag, f.etag),
       contentType := Or(e.contentType, f.contentType), meta := Or(e.meta, Some(f.meta)))
  }

  function CompletionOf(b: Bucket, key: Text, f: Fill): Completion {
    if key !in b.keys.rows then NotIndexed
    else if !SameVersion(b.keys.rows[key], f) then OtherVersion
    else if Filled(b.keys.rows[key], f) == b.keys.rows[key] then AlreadyComplete
    else Completed
  }

  function CompleteCell(c: Cell, key: Text, f: Fill): Cell {
    if CompletionOf(c.bucket, key, f).Completed?
    then InsertRow(c, key, Filled(c.bucket.keys.rows[key], f)) else c
  }

  // ----- fences -----

  function FenceBucket(b: Bucket, key: Text): Bucket {
    b.(epoch := b.epoch + 1, fences := b.fences[key := b.epoch + 1])
  }

  datatype Authoritative = Present(entry: Entry) | Absent(now: Time)

  predicate OwnsFence(b: Bucket, key: Text, token: nat) { key in b.fences && b.fences[key] == token }

  function ResolveCell(c: Cell, key: Text, token: nat, truth: Authoritative): Cell {
    var b := c.bucket;
    if !OwnsFence(b, key, token) then c else
    match truth
    case Present(e) => InsertRow(Cell(Settle(b.(gone := GoneRemove(b.gone, key)), key), c.total), key, e)
    case Absent(now) => RemoveRow(Cell(Settle(b.(gone := GoneRaise(b.gone, key, now)), key), c.total), key)
  }

  // ----- rebuilds -----

  function NextGeneration(g: u64): u64 { if g + 1 < U64_LIMIT then g + 1 else 0 }

  /** An empty bucket of the next generation that still owns its fences. */
  function Discarded(b: Bucket): Bucket {
    EMPTY_BUCKET.(generation := NextGeneration(b.generation), epoch := b.epoch, fences := b.fences)
  }

  function Resynced(b: Bucket): Bucket {
    Discarded(b).(rebuild := Some(NextGeneration(b.generation)))
  }

  predicate Rebuilding(b: Bucket, generation: u64) {
    b.generation == generation && b.rebuild == Some(generation)
  }

  predicate ListAccepted(b: Bucket, key: Text, ts: Time) {
    key !in b.touched && key !in b.fences && !DeadSince(b, key, ts) && !NewerRow(b, key, ts)
  }

  datatype Listed = Listed(key: Text, entry: Entry)

  /** Strictly ascending by key, as an image or an honest origin gives rows. */
  predicate Rising(rows: seq<Listed>) { forall i, j :: 0 <= i < j < |rows| ==> Less(rows[i].key, rows[j].key) }

  function ListRow(c: Cell, row: Listed): Cell {
    if ListAccepted(c.bucket, row.key, row.entry.lastModified) then InsertRow(c, row.key, row.entry) else c
  }

  function ListRows(c: Cell, rows: seq<Listed>): Cell {
    if rows == [] then c else ListRow(ListRows(c, rows[..|rows| - 1]), rows[|rows| - 1])
  }

  function Finished(b: Bucket): Bucket { b.(synced := true, rebuild := None, touched := {}) }
}
