/** What a row holds, and its share of an image in bytes and charge. */
module Entries {
  import opened Base

  const SECOND: int := 1_000_000_000

  /** Nanoseconds since the Unix epoch, negative before it, within signed 64-bit seconds. */
  type Time = t: int | -9_223_372_036_854_775_808_000_000_000 <= t < 9_223_372_036_854_775_808_000_000_000

  /** The second a time falls in, the first one for all earlier times. */
  function WholeSeconds(t: Time): nat { if t < 0 then 0 else t / 1_000_000_000 }

  /** The later of a time, if there is one, and another. */
  function Later(t: Option<Time>, at: Time): Option<Time> {
    if t.Some? && t.value >= at then t else Some(at)
  }

  /** etagc of section 8.8.3 of RFC 9110. */
  predicate EtagChar(b: byte) { b == 0x21 || 0x23 <= b <= 0x7E || 0x80 <= b }

  type EtagText = s: seq<byte> | Utf8(s) && forall i :: 0 <= i < |s| ==> EtagChar(s[i])

  datatype ETag = Strong(raw: EtagText) | Weak(raw: EtagText)

  datatype Meta = Meta(cacheControl: Option<Text>, contentDisposition: Option<Text>,
                       contentEncoding: Option<Text>, contentLanguage: Option<Text>,
                       metadata: Option<map<Text, Text>>)

  datatype Entry = Entry(size: Option<i64>, lastModified: Time, etag: Option<ETag>,
                         storageClass: Text, contentType: Option<Text>, meta: Option<Meta>)

  function BlankEntry(t: Time): Entry { Entry(None, t, None, [], None, None) }

  /** What LIST reports of an entry: all a peer image or a journaled effect carries. */
  function Skeleton(e: Entry): Entry {
    e.(contentType := None, meta := None)
  }

  // In-memory sizes of the Rust types a decoded image owns: arbitrary platform values.
  const INDEX_BYTES: nat
  const BUCKET_SLOT_BYTES: nat
  const STRING_BYTES: nat
  const ROW_SLOT_BYTES: nat
  const TOMBSTONE_SLOT_BYTES: nat
  const ETAG_BYTES: nat
  const CLASS_BYTES: nat

  // A row is charged three tree slots and a share of its nodes; a bucket four hash slots.
  const HASH_MIN_SLOTS: nat := 8
  const TREE_BYTES_PER_ROW: nat := 64
  const TIMESTAMP_BYTES: nat := 12

  /** Bytes of an entity tag with its quotes and weakness mark. */
  function EtagTextLen(t: ETag): nat {
    match t
    case Strong(raw) => 1 + |raw| + 1
    case Weak(raw) => 3 + |raw| + 1
  }

  function EntryBytes(key: nat, e: Entry): nat {
    4 + key + (if e.size.Some? then 9 else 1) + TIMESTAMP_BYTES
    + (if e.etag.Some? then 1 + 4 + EtagTextLen(e.etag.value) else 1)
    + 4 + |e.storageClass|
  }

  function GoneBytes(key: nat): nat { 4 + key + TIMESTAMP_BYTES }

  function EtagCharge(etag: Option<nat>): nat {
    if etag.Some? then 2 * etag.value + ETAG_BYTES else 0
  }

  function EntryChargeOf(key: nat, etag: Option<nat>, storageClass: nat): nat {
    key + 3 * ROW_SLOT_BYTES + TREE_BYTES_PER_ROW
    + EtagCharge(etag) + storageClass + CLASS_BYTES
  }

  function EtagLen(e: Entry): Option<nat> {
    if e.etag.Some? then Some(EtagTextLen(e.etag.value)) else None
  }

  function EntryCharge(key: nat, e: Entry): nat {
    EntryChargeOf(key, EtagLen(e), |e.storageClass|)
  }

  function GoneCharge(key: nat): nat {
    key + 3 * TOMBSTONE_SLOT_BYTES + TREE_BYTES_PER_ROW
  }

  /** One row's share of an image, each sum kept modulo the word size. */
  datatype Tally = Tally(encoded: u64, decoded: u64)

  const NO_TALLY := Tally(0, 0)

  /** A size that overflows the word counts as its largest value. */
  function Clip(n: nat): u64 { if n < U64_LIMIT then n else U64_LIMIT - 1 }

  function Wrap(n: int): u64 { n % 0x1_0000_0000_0000_0000 }

  function EntryTally(key: nat, e: Entry): Tally {
    Tally(Clip(EntryBytes(key, e)), Clip(EntryCharge(key, e)))
  }

  function GoneTally(key: nat): Tally {
    Tally(Clip(GoneBytes(key)), Clip(GoneCharge(key)))
  }

  function AddTally(a: Tally, b: Tally): Tally {
    Tally(Wrap(a.encoded + b.encoded), Wrap(a.decoded + b.decoded))
  }

  function SubTally(a: Tally, b: Tally): Tally {
    Tally(Wrap(a.encoded - b.encoded), Wrap(a.decoded - b.decoded))
  }
}

/** A bucket's live rows and tombstones (src/index/rows.rs): their contents, the image
    tally kept beside them, and the incremental tombstone sweep. */
module Rows {
  import opened Base
  import opened Ordered
  import opened Entries
  import opened Sums

  datatype KeyRows = KeyRows(rows: map<Text, Entry>, image: Tally)

  const NO_KEYS := KeyRows(map[], NO_TALLY)

  function KeyInsert(t: KeyRows, k: Text, e: Entry): KeyRows {
    var added := AddTally(t.image, EntryTally(|k|, e));
    KeyRows(t.rows[k := e],
            if k in t.rows then SubTally(added, EntryTally(|k|, t.rows[k])) else added)
  }

  function KeyRemove(t: KeyRows, k: Text): KeyRows {
    if k in t.rows then KeyRows(t.rows - {k}, SubTally(t.image, EntryTally(|k|, t.rows[k]))) else t
  }

  /** A row changed in place counts out before and in after the change. */
  function KeyUpdate(t: KeyRows, k: Text, e: Entry): KeyRows
    requires k in t.rows
  {
    KeyRows(t.rows[k := e],
            AddTally(SubTally(t.image, EntryTally(|k|, t.rows[k])), EntryTally(|k|, e)))
  }

  datatype GoneRows = GoneRows(rows: map<Text, Time>, image: Tally, cursor: Option<Text>,
                               floor: Option<Time>, lapFloor: Option<Time>)

  const NO_GONE := GoneRows(map[], NO_TALLY, None, None, None)

  function Lower(floor: Option<Time>, at: Time): Option<Time> {
    Some(if floor.Some? && floor.value < at then floor.value else at)
  }

  predicate Behind(cursor: Option<Text>, k: Text) {
    cursor.Some? && AtMost(k, cursor.value)
  }

  function GoneInsert(t: GoneRows, k: Text, at: Time): GoneRows {
    GoneRows(t.rows[k := at],
             if k in t.rows then t.image else AddTally(t.image, GoneTally(|k|)),
             t.cursor,
             Lower(t.floor, at),
             if Behind(t.cursor, k) then Lower(t.lapFloor, at) else t.lapFloor)
  }

  function GoneRaise(t: GoneRows, k: Text, at: Time): GoneRows {
    if k !in t.rows || t.rows[k] < at then GoneInsert(t, k, at) else t
  }

  function GoneRemove(t: GoneRows, k: Text): GoneRows {
    if k in t.rows then t.(rows := t.rows - {k}, image := SubTally(t.image, GoneTally(|k|))) else t
  }

  const SWEEP_STEP: nat := 16

  /** Keys the current lap has yet to visit, in key order. */
  function Ahead(t: GoneRows): (a: seq<Text>)
    ensures forall k: Text :: k in a <==> k in t.rows && !Behind(t.cursor, k)
  {
    Sorted(set k | k in t.rows && !Behind(t.cursor, k))
  }

  /** The keys one sweep step visits: at most `SWEEP_STEP`, in key order. */
  function Window(t: GoneRows): (w: seq<Text>)
    ensures |w| <= SWEEP_STEP && w <= Ahead(t)
    ensures forall k: Text :: k in w ==> k in t.rows && !Behind(t.cursor, k)
  {
    if |Ahead(t)| < SWEEP_STEP then Ahead(t) else Ahead(t)[..SWEEP_STEP]
  }

  /** `floor` lowered by the deletion times of the visited keys that have not expired. */
  function KeptFloor(rows: map<Text, Time>, visited: seq<Text>, cutoff: Time, floor: Option<Time>): Option<Time>
    requires forall k :: k in visited ==> k in rows
  {
    if visited == [] then floor else
      var last := visited[|visited| - 1];
      var before := KeptFloor(rows, visited[..|visited| - 1], cutoff, floor);
      if rows[last] < cutoff then before else Lower(before, rows[last])
  }

  function Expired(rows: map<Text, Time>, visited: seq<Text>, cutoff: Time): seq<Text>
    requires forall k :: k in visited ==> k in rows
  {
    if visited == [] then [] else
      var last := visited[|visited| - 1];
      var before := Expired(rows, visited[..|visited| - 1], cutoff);
      if rows[last] < cutoff then before + [last] else before
  }

  function RemoveAll(t: GoneRows, keys: seq<Text>): GoneRows {
    if keys == [] then t else GoneRemove(RemoveAll(t, keys[..|keys| - 1]), keys[|keys| - 1])
  }

  predicate SweepDue(t: GoneRows, cutoff: Time) {
    t.floor.Some? && t.floor.value < cutoff
  }

  /** The cursor and floors after visiting the window. */
  function Moved(t: GoneRows, cutoff: Time): GoneRows {
    var visited := Window(t);
    var lap := KeptFloor(t.rows, visited, cutoff, t.lapFloor);
    if |visited| < SWEEP_STEP
    then t.(cursor := None, floor := lap, lapFloor := None)
    else t.(cursor := Some(visited[|visited| - 1]), lapFloor := lap)
  }

  /** One sweep step: the window is visited, then its expired rows are forgotten. */
  function Sweep(t: GoneRows, cutoff: Time): GoneRows {
    if !SweepDue(t, cutoff) then t
    else RemoveAll(Moved(t, cutoff), Expired(t.rows, Window(t), cutoff))
  }

  // ----- what the floors mean -----

  ghost predicate FloorsHold(t: GoneRows) {
    && (forall k :: k in t.rows ==> t.floor.Some? && t.floor.value <= t.rows[k])
    && (forall k :: k in t.rows && Behind(t.cursor, k) ==> t.lapFloor.Some? && t.lapFloor.value <= t.rows[k])
  }

  lemma FloorsAfterInsert(t: GoneRows, k: Text, at: Time)
    requires FloorsHold(t)
    ensures FloorsHold(GoneInsert(t, k, at)) && FloorsHold(GoneRaise(t, k, at)) && FloorsHold(GoneRemove(t, k))
  {}

  lemma {:induction false} KeptFloorBounds(rows: map<Text, Time>, visited: seq<Text>, cutoff: Time, floor: Option<Time>)
    requires forall k :: k in visited ==> k in rows
    ensures var f := KeptFloor(rows, visited, cutoff, floor);
      && (floor.Some? ==> f.Some? && f.value <= floor.value)
      && (forall k :: k in visited && rows[k] >= cutoff ==> f.Some? && f.value <= rows[k])
  {
    if visited != [] {
      KeptFloorBounds(rows, visited[..|visited| - 1], cutoff, floor);
      assert forall k :: k in visited ==> k in visited[..|visited| - 1] || k == visited[|visited| - 1];
    }
  }

  lemma {:induction false} ExpiredIs(rows: map<Text, Time>, visited: seq<Text>, cutoff: Time)
    requires forall k :: k in visited ==> k in rows
    ensures forall k: Text :: k in Expired(rows, visited, cutoff) <==> k in visited && rows[k] < cutoff
  {
    if visited != [] {
      ExpiredIs(rows, visited[..|visited| - 1], cutoff);
      assert visited == visited[..|visited| - 1] + [visited[|visited| - 1]];
    }
  }

  lemma {:induction false} RemoveAllIs(t: GoneRows, keys: seq<Text>)
    ensures var r := RemoveAll(t, keys);
      && r.rows == t.rows - (set k | k in keys)
      && r.cursor == t.cursor && r.floor == t.floor && r.lapFloor == t.lapFloor
  {
    if keys != [] {
      RemoveAllIs(t, keys[..|keys| - 1]);
      assert keys == keys[..|keys| - 1] + [keys[|keys| - 1]];
    }
  }

  /** What one due step does: it visits the window, forgets exactly its expired rows,
      and either ends the lap or leaves the cursor on the last key visited. */
  lemma SweepIs(t: GoneRows, cutoff: Time)
    requires SweepDue(t, cutoff)
    ensures var r := Sweep(t, cutoff); var w := Window(t);
      && (forall k :: k in r.rows <==> k in t.rows && (k in w ==> t.rows[k] >= cutoff))
      && (forall k :: k in r.rows ==> r.rows[k] == t.rows[k])
      && r.cursor == Moved(t, cutoff).cursor && r.floor == Moved(t, cutoff).floor
      && r.lapFloor == Moved(t, cutoff).lapFloor
  {
    ExpiredIs(t.rows, Window(t), cutoff);
    RemoveAllIs(Moved(t, cutoff), Expired(t.rows, Window(t), cutoff));
  }

  lemma AheadAscends(t: GoneRows)
    ensures Ascending(Ahead(t)) && |Ahead(t)| <= |t.rows|
  {
    var ahead := set k | k in t.rows && !Behind(t.cursor, k);
    SortedAscends(ahead);
    Subset(ahead, t.rows.Keys);
  }

  lemma {:induction false} Subset<T>(a: set<T>, b: set<T>)
    requires a <= b
    ensures |a| <= |b|
    decreases |a|
  {
    if a != {} {
      var x :| x in a;
      Subset(a - {x}, b - {x});
    }
  }

  /** The keys at or behind the cursor after a full step were behind it or visited. */
  lemma WindowSplits(t: GoneRows, k: Text)
    requires k in t.rows
    requires |Ahead(t)| >= SWEEP_STEP
    ensures var w := Window(t);
      Behind(Some(w[|w| - 1]), k) <==> Behind(t.cursor, k) || k in w
  {
    var a := Ahead(t);
    AheadAscends(t);
    var last := a[SWEEP_STEP - 1];
    assert last in a;
    assert a == Window(t) + a[SWEEP_STEP..];
    if Behind(t.cursor, k) {
      LessTotal(k, last);
      if Less(last, k) && k != t.cursor.value { LessTransitive(last, k, t.cursor.value); }
    } else {
      assert k in a;
      var i :| 0 <= i < |a| && a[i] == k;
      if i < SWEEP_STEP {
        assert Window(t)[i] == k;
      } else {
        LessAsymmetric(last, k);
        LessIrreflexive(k);
      }
    }
  }

  lemma FloorsAfterSweep(t: GoneRows, cutoff: Time)
    requires FloorsHold(t)
    ensures FloorsHold(Sweep(t, cutoff))
  {
    if SweepDue(t, cutoff) {
      SweepIs(t, cutoff);
      var r := Sweep(t, cutoff);
      var w := Window(t);
      KeptFloorBounds(t.rows, w, cutoff, t.lapFloor);
      forall k | k in r.rows && (|w| < SWEEP_STEP || Behind(r.cursor, k))
        ensures var f := KeptFloor(t.rows, w, cutoff, t.lapFloor); f.Some? && f.value <= r.rows[k]
      {
        if |w| == SWEEP_STEP {
          WindowSplits(t, k);
        } else {
          assert Behind(t.cursor, k) || k in Ahead(t);
        }
      }
    }
  }

  // ----- how many sweeps it takes -----

  ghost predicate Clean(t: GoneRows, cutoff: Time) {
    forall k :: k in t.rows ==> t.rows[k] >= cutoff
  }

  ghost predicate CleanBehind(t: GoneRows, cutoff: Time) {
    forall k :: k in t.rows && Behind(t.cursor, k) ==> t.rows[k] >= cutoff
  }

  ghost function AheadSet(t: GoneRows): set<Text> {
    set k | k in t.rows && !Behind(t.cursor, k)
  }

  /** What one sweep step does to a lap: nothing when all is clean; otherwise it ends the
      lap or moves it on by `SWEEP_STEP` keys, leaving nothing expired behind it. */
  ghost predicate LapStep(t: GoneRows, r: GoneRows, cutoff: Time) {
    && FloorsHold(r)
    && |r.rows| <= |t.rows|
    && (Clean(t, cutoff) ==> Clean(r, cutoff))
    && (|| Clean(t, cutoff)
        || (|AheadSet(t)| < SWEEP_STEP && r.cursor == None && (CleanBehind(t, cutoff) ==> Clean(r, cutoff)))
        || (|AheadSet(r)| == |AheadSet(t)| - SWEEP_STEP && (CleanBehind(t, cutoff) ==> CleanBehind(r, cutoff))))
  }

  /** A full step leaves exactly the later keys ahead of its cursor. */
  lemma AheadAfterStep(t: GoneRows, cutoff: Time)
    requires SweepDue(t, cutoff) && |Ahead(t)| >= SWEEP_STEP
    ensures Ahead(Sweep(t, cutoff)) == Ahead(t)[SWEEP_STEP..]
  {
    hide Less, Utf8, Sweep, Ahead, KeptFloor;
    SweepIs(t, cutoff);
    var a := Ahead(t);
    AheadAscends(t);
    var r := Sweep(t, cutoff);
    assert a == Window(t) + a[SWEEP_STEP..];
    forall k: Text ensures k in a[SWEEP_STEP..] <==> k in Ahead(r) {
      if k in t.rows {
        WindowSplits(t, k);
        LessIrreflexive(k);
      }
    }
    AheadAscends(r);
    AscendingUnique(Ahead(r), a[SWEEP_STEP..]);
  }

  lemma KeysShrink(t: GoneRows, cutoff: Time)
    ensures |Sweep(t, cutoff).rows| <= |t.rows|
  {
    if SweepDue(t, cutoff) {
      SweepIs(t, cutoff);
      Subset(Sweep(t, cutoff).rows.Keys, t.rows.Keys);
      assert |Sweep(t, cutoff).rows.Keys| == |Sweep(t, cutoff).rows|;
    }
  }

  lemma AheadSize(t: GoneRows)
    ensures |Ahead(t)| == |AheadSet(t)|
  {
    SortedAscends(AheadSet(t));
  }

  lemma SweepKeepsBehindClean(t: GoneRows, cutoff: Time)
    requires SweepDue(t, cutoff) && CleanBehind(t, cutoff)
    ensures var r := Sweep(t, cutoff);
      if |Ahead(t)| < SWEEP_STEP then Clean(r, cutoff) else CleanBehind(r, cutoff)
  {
    hide Sweep, Utf8, Less, KeptFloor;
    SweepIs(t, cutoff);
    var r := Sweep(t, cutoff);
    if |Ahead(t)| >= SWEEP_STEP {
      forall k | k in r.rows && Behind(r.cursor, k) ensures r.rows[k] >= cutoff { WindowSplits(t, k); }
    } else {
      forall k | k in r.rows ensures r.rows[k] >= cutoff { assert Behind(t.cursor, k) || k in Ahead(t); }
    }
  }

  lemma SweepIsLapStep(t: GoneRows, cutoff: Time)
    requires FloorsHold(t)
    ensures LapStep(t, Sweep(t, cutoff), cutoff)
  {
    if SweepDue(t, cutoff) {
      SweepIs(t, cutoff);
      FloorsAfterSweep(t, cutoff);
      KeysShrink(t, cutoff);
      AheadSize(t);
      AheadSize(Sweep(t, cutoff));
      if |Ahead(t)| >= SWEEP_STEP { AheadAfterStep(t, cutoff); }
      if CleanBehind(t, cutoff) { SweepKeepsBehindClean(t, cutoff); }
      hide Sweep, Utf8, Behind, FloorsHold, KeptFloor, Ahead, AheadSet;
    } else {
      NotDueIsClean(t, cutoff);
    }
  }

  lemma NotDueIsClean(t: GoneRows, cutoff: Time)
    requires FloorsHold(t) && !SweepDue(t, cutoff)
    ensures Clean(t, cutoff)
  {}

  function Iterate(step: GoneRows -> GoneRows, t: GoneRows, n: nat): GoneRows
    decreases n
  {
    if n == 0 then t else Iterate(step, step(t), n - 1)
  }

  ghost predicate Laps(step: GoneRows -> GoneRows, cutoff: Time) {
    forall t {:trigger step(t)} :: FloorsHold(t) ==> LapStep(t, step(t), cutoff)
  }

  lemma {:induction false} CleanStaysClean(step: GoneRows -> GoneRows, cutoff: Time, t: GoneRows, n: nat)
    requires Laps(step, cutoff) && FloorsHold(t) && Clean(t, cutoff)
    ensures Clean(Iterate(step, t, n), cutoff)
    decreases n
  {
    if n > 0 { CleanStaysClean(step, cutoff, step(t), n - 1); }
  }

  /** A lap that has kept nothing expired behind its cursor ends clean. */
  lemma {:induction false} LapEndsClean(step: GoneRows -> GoneRows, cutoff: Time, t: GoneRows, n: nat)
    requires Laps(step, cutoff) && FloorsHold(t) && CleanBehind(t, cutoff)
    requires 16 * n > |AheadSet(t)|
    ensures Clean(Iterate(step, t, n), cutoff)
    decreases n
  {
    hide Behind, Utf8, FloorsHold;
    if Clean(t, cutoff) {
      CleanStaysClean(step, cutoff, t, n);
    } else if |AheadSet(t)| < SWEEP_STEP && step(t).cursor == None {
      CleanStaysClean(step, cutoff, step(t), n - 1);
    } else {
      LapEndsClean(step, cutoff, step(t), n - 1);
    }
  }

  lemma {:induction false} TwoLapsEndClean(step: GoneRows -> GoneRows, cutoff: Time, t: GoneRows, lap: nat, n: nat)
    requires Laps(step, cutoff) && FloorsHold(t)
    requires 16 * lap > |AheadSet(t)| && 16 * (n - lap) > |t.rows|
    ensures Clean(Iterate(step, t, n), cutoff)
    decreases n
  {
    hide Less, Utf8, FloorsHold;
    if Clean(t, cutoff) {
      CleanStaysClean(step, cutoff, t, n);
    } else if |AheadSet(t)| < SWEEP_STEP && step(t).cursor == None {
      Subset(AheadSet(step(t)), step(t).rows.Keys);
      LapEndsClean(step, cutoff, step(t), n - 1);
    } else {
      TwoLapsEndClean(step, cutoff, step(t), lap - 1, n - 1);
    }
  }

  /** From any state the floors describe, `2 * (n / 16 + 1)` sweeps of `n` tombstones under
      one cutoff leave nothing that had expired. */
  lemma SweepBound(t: GoneRows, cutoff: Time)
    requires FloorsHold(t)
    ensures Clean(Iterate(g => Sweep(g, cutoff), t, 2 * (|t.rows| / SWEEP_STEP + 1)), cutoff)
  {
    var step := (g: GoneRows) => Sweep(g, cutoff);
    forall g | FloorsHold(g) ensures LapStep(g, step(g), cutoff) { SweepIsLapStep(g, cutoff); }
    Subset(AheadSet(t), t.rows.Keys);
    var lap := |t.rows| / SWEEP_STEP + 1;
    TwoLapsEndClean(step, cutoff, t, lap, 2 * lap);
  }

  // ----- the image tally is the modular sum of the rows -----

  ghost function KeyEncoded(k: Text, e: Entry): int { EntryTally(|k|, e).encoded }
  ghost function KeyDecoded(k: Text, e: Entry): int { EntryTally(|k|, e).decoded }
  ghost function GoneEncoded(k: Text, at: Time): int { GoneTally(|k|).encoded }
  ghost function GoneDecoded(k: Text, at: Time): int { GoneTally(|k|).decoded }

  ghost predicate KeysTallied(t: KeyRows) {
    t.image == Wrapped(Sum(t.rows, KeyEncoded), Sum(t.rows, KeyDecoded))
  }

  ghost predicate GoneTallied(t: GoneRows) {
    t.image == Wrapped(Sum(t.rows, GoneEncoded), Sum(t.rows, GoneDecoded))
  }

  lemma WrapShift(a: int, b: int)
    ensures Wrap(Wrap(a) + b) == Wrap(a + b) && Wrap(Wrap(a) - b) == Wrap(a - b)
  {
    var q := a / 0x1_0000_0000_0000_0000;
    WrapMultiple(Wrap(a) + b, q);
    WrapMultiple(Wrap(a) - b, q);
  }

  lemma WrapMultiple(a: int, q: int)
    ensures Wrap(a + q * 0x1_0000_0000_0000_0000) == Wrap(a)
  {}

  ghost function Wrapped(x: int, y: int): Tally { Tally(Wrap(x), Wrap(y)) }

  lemma TallyAdds(x: int, y: int, row: Tally)
    ensures AddTally(Wrapped(x, y), row) == Wrapped(x + row.encoded, y + row.decoded)
  {
    WrapShift(x, row.encoded); WrapShift(y, row.decoded);
    hide Wrap;
  }

  lemma TallySubs(x: int, y: int, row: Tally)
    ensures SubTally(Wrapped(x, y), row) == Wrapped(x - row.encoded, y - row.decoded)
  {
    WrapShift(x, row.encoded); WrapShift(y, row.decoded);
    hide Wrap;
  }

  lemma TallyExchange(x: int, y: int, added: Tally, removed: Tally)
    ensures var exchanged := Wrapped(x + added.encoded - removed.encoded, y + added.decoded - removed.decoded);
      && SubTally(AddTally(Wrapped(x, y), added), removed) == exchanged
      && AddTally(SubTally(Wrapped(x, y), removed), added) == exchanged
  {
    hide Wrapped, AddTally, SubTally;
    TallyAdds(x, y, added);
    TallySubs(x + added.encoded, y + added.decoded, removed);
    TallySubs(x, y, removed);
    TallyAdds(x - removed.encoded, y - removed.decoded, added);
    assert x - removed.encoded + added.encoded == x + added.encoded - removed.encoded;
    assert y - removed.decoded + added.decoded == y + added.decoded - removed.decoded;
  }

  lemma KeyInsertTallied(t: KeyRows, k: Text, e: Entry)
    requires KeysTallied(t)
    ensures KeysTallied(KeyInsert(t, k, e))
    ensures k in t.rows ==> KeyUpdate(t, k, e) == KeyInsert(t, k, e)
  {
    hide Wrapped, AddTally, SubTally, EntryTally;
    SumInsert(t.rows, KeyEncoded, k, e);
    SumInsert(t.rows, KeyDecoded, k, e);
    var (x, y) := (Sum(t.rows, KeyEncoded), Sum(t.rows, KeyDecoded));
    if k in t.rows {
      TallyExchange(x, y, EntryTally(|k|, e), EntryTally(|k|, t.rows[k]));
    } else {
      TallyAdds(x, y, EntryTally(|k|, e));
    }
  }

  lemma KeyRemoveTallied(t: KeyRows, k: Text)
    requires KeysTallied(t)
    ensures KeysTallied(KeyRemove(t, k))
  {
    hide Wrapped, SubTally, EntryTally;
    if k in t.rows {
      SumRemove(t.rows, KeyEncoded, k);
      SumRemove(t.rows, KeyDecoded, k);
      TallySubs(Sum(t.rows, KeyEncoded), Sum(t.rows, KeyDecoded), EntryTally(|k|, t.rows[k]));
    }
  }

  lemma GoneInsertTallied(t: GoneRows, k: Text, at: Time)
    requires GoneTallied(t)
    ensures GoneTallied(GoneInsert(t, k, at)) && GoneTallied(GoneRaise(t, k, at))
  {
    hide Wrapped, AddTally, GoneTally;
    SumInsert(t.rows, GoneEncoded, k, at);
    SumInsert(t.rows, GoneDecoded, k, at);
    TallyAdds(Sum(t.rows, GoneEncoded), Sum(t.rows, GoneDecoded), GoneTally(|k|));
  }

  lemma GoneRemoveTallied(t: GoneRows, k: Text)
    requires GoneTallied(t)
    ensures GoneTallied(GoneRemove(t, k))
  {
    hide Wrapped, SubTally, GoneTally;
    if k in t.rows {
      SumRemove(t.rows, GoneEncoded, k);
      SumRemove(t.rows, GoneDecoded, k);
      TallySubs(Sum(t.rows, GoneEncoded), Sum(t.rows, GoneDecoded), GoneTally(|k|));
    }
  }

  lemma {:induction false} RemoveAllTallied(t: GoneRows, keys: seq<Text>)
    requires GoneTallied(t)
    ensures GoneTallied(RemoveAll(t, keys))
  {
    hide Wrapped, SubTally, GoneTally, GoneRemove, GoneTallied;
    if keys != [] {
      RemoveAllTallied(t, keys[..|keys| - 1]);
      GoneRemoveTallied(RemoveAll(t, keys[..|keys| - 1]), keys[|keys| - 1]);
    }
  }

  lemma SweepTallied(t: GoneRows, cutoff: Time)
    requires GoneTallied(t)
    ensures GoneTallied(Sweep(t, cutoff))
  {
    hide RemoveAll, Wrapped, Window, KeptFloor;
    if SweepDue(t, cutoff) {
      RemoveAllTallied(Moved(t, cutoff), Expired(t.rows, Window(t), cutoff));
    }
  }
}
