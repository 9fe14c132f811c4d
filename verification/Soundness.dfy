/** What every operation keeps of every bucket: no tombstone reaches a row it shares a key
    with, tallies and sweep floors describe the rows held, and fences and rebuilds carry
    tokens of their own bucket. */
module Soundness {
  import opened Base
  import opened Ordered
  import opened Entries
  import opened Rows
  import opened Wire
  import opened Buckets
  import opened Image
  import opened ImageCodec
  import opened ImageRoundTrip
  import opened Index
  import opened Install
  import opened Machine
  import Delta

  /** A key holding both a row and a tombstone holds the row later. */
  ghost predicate Exclusive(b: Bucket) {
    forall k :: k in b.keys.rows && k in b.gone.rows ==> b.gone.rows[k] < b.keys.rows[k].lastModified
  }

  ghost predicate Tabled(b: Bucket) {
    KeysTallied(b.keys) && GoneTallied(b.gone) && FloorsHold(b.gone)
  }

  /** Open fences hold distinct tokens the bucket has allocated. */
  ghost predicate Owned(b: Bucket) {
    && (forall k :: k in b.fences ==> 0 < b.fences[k] <= b.epoch)
    && (forall j, k :: j in b.fences && k in b.fences && b.fences[j] == b.fences[k] ==> j == k)
    && (b.rebuild.Some? ==> b.rebuild.value == b.generation)
    && (b.rebuild.None? ==> b.touched == {})
  }

  ghost predicate Sound(b: Bucket) { Exclusive(b) && Tabled(b) && Owned(b) }

  ghost predicate AllSound(buckets: map<Text, Bucket>) {
    forall name :: name in buckets ==> Sound(buckets[name])
  }

  lemma EmptySound()
    ensures Sound(EMPTY_BUCKET)
  {
    NoKeysTallied();
  }

  // ----- one bucket -----

  lemma InsertRowSound(c: Cell, key: Text, e: Entry)
    requires Sound(c.bucket)
    requires key in c.bucket.gone.rows ==> c.bucket.gone.rows[key] < e.lastModified
    ensures Sound(InsertRow(c, key, e).bucket)
  {
    hide Utf8, KeysTallied, GoneTallied, FloorsHold, Replace, Owned;
    KeyInsertTallied(c.bucket.keys, key, e);
    SameOwned(c.bucket, InsertRow(c, key, e).bucket);
  }

  lemma SameOwned(b: Bucket, d: Bucket)
    requires Owned(b) && d.fences == b.fences && d.epoch == b.epoch && d.rebuild == b.rebuild
    requires d.touched == b.touched && d.generation == b.generation
    ensures Owned(d)
  {}

  lemma SettleSound(b: Bucket, key: Text)
    requires Sound(b)
    ensures Sound(Settle(b, key))
  {
    hide Utf8, Tabled;
    assert Tabled(Settle(b, key)) by { SameTables(b, Settle(b, key)); }
  }

  lemma SameTables(b: Bucket, d: Bucket)
    requires Tabled(b) && d.keys == b.keys && d.gone == b.gone
    ensures Tabled(d)
  {}

  /** Raising, removing or sweeping tombstones keeps the table and, where no raised
      tombstone reaches a row, exclusion. */
  lemma RaiseSound(b: Bucket, key: Text, at: Time)
    requires Sound(b)
    requires key in b.keys.rows ==> at < b.keys.rows[key].lastModified
    ensures Sound(b.(gone := GoneRaise(b.gone, key, at)))
  {
    hide Utf8, KeysTallied, GoneTallied, Owned;
    GoneInsertTallied(b.gone, key, at);
    FloorsAfterInsert(b.gone, key, at);
    SameOwned(b, b.(gone := GoneRaise(b.gone, key, at)));
    hide FloorsHold;
  }

  lemma ForgetSound(b: Bucket, key: Text)
    requires Sound(b)
    ensures Sound(b.(gone := GoneRemove(b.gone, key)))
  {
    hide Utf8, KeysTallied, GoneTallied, Owned;
    GoneRemoveTallied(b.gone, key);
    FloorsAfterInsert(b.gone, key, 0);
    SameOwned(b, b.(gone := GoneRemove(b.gone, key)));
    hide FloorsHold;
  }

  lemma SweepSound(b: Bucket, cutoff: Time)
    requires Sound(b)
    ensures Sound(b.(gone := Sweep(b.gone, cutoff)))
  {
    hide Utf8, KeysTallied, GoneTallied, FloorsHold, Owned;
    SweepTallied(b.gone, cutoff);
    FloorsAfterSweep(b.gone, cutoff);
    if SweepDue(b.gone, cutoff) { SweepIs(b.gone, cutoff); }
    SameOwned(b, b.(gone := Sweep(b.gone, cutoff)));
    hide Window, Moved;
  }

  lemma PrunedSound(b: Bucket, ts: Time, sweep: bool)
    requires Sound(b)
    ensures Sound(Pruned(b, ts, sweep))
  {
    var cutoff := ts - TOMBSTONE_TTL;
    if -9_223_372_036_854_775_808_000_000_000 <= cutoff { SweepSound(b, cutoff); }
    hide Sound, Sweep;
  }

  lemma PutSound(c: Cell, key: Text, e: Entry, definitive: bool)
    requires Sound(c.bucket)
    ensures Sound(PutCell(c, key, e, definitive).bucket)
  {
    hide Sound, InsertRow, GoneRemove;
    var b := c.bucket;
    if PutAccepted(b, key, e.lastModified, definitive) {
      if !definitive {
        InsertRowSound(c, key, e);
      } else {
        var cleared := if FirstMutation(b, key) then b.(gone := GoneRemove(b.gone, key)) else b;
        ForgetSound(b, key);
        SettleSound(cleared, key);
        Gone(b.gone, key);
        InsertRowSound(Cell(Settle(cleared, key), c.total), key, e);
      }
    }
  }

  lemma Gone(t: GoneRows, key: Text)
    ensures key !in GoneRemove(t, key).rows
  {}

  lemma DelSound(c: Cell, key: Text, ts: Time, sweep: bool)
    requires Sound(c.bucket)
    ensures Sound(DelCell(c, key, ts, sweep).bucket)
  {
    var b := Pruned(c.bucket, ts, sweep);
    var dead := Entombed(b, key, ts);
    PrunedSound(c.bucket, ts, sweep);
    if !DelAccepted(b, key, ts) {
      RejectedDelSound(b, key, ts);
    } else {
      AcceptedDelSound(b, key, ts, c.total);
    }
    hide Sound, Pruned, Entombed, RemoveRow;
  }

  lemma RejectedDelSound(b: Bucket, key: Text, ts: Time)
    requires Sound(b) && !DelAccepted(b, key, ts)
    ensures Sound(Entombed(b, key, ts))
  {
    if NewerRow(b, key, ts) {
      RaiseSound(b, key, ts);
    } else {
      assert GoneRaise(b.gone, key, ts) == b.gone;
      assert Entombed(b, key, ts) == b;
    }
    hide Sound, GoneRaise;
  }

  /** Tables and ownership without exclusion, while a row and the delete taking it out are
      both present. */
  lemma AcceptedDelSound(b: Bucket, key: Text, ts: Time, total: Stats)
    requires Sound(b) && DelAccepted(b, key, ts)
    ensures Sound(RemoveRow(Cell(Settle(Entombed(b, key, ts), key), total), key).bucket)
  {
    hide Utf8, KeysTallied, GoneTallied, Replace;
    var dead := Entombed(b, key, ts);
    GoneInsertTallied(b.gone, key, ts);
    FloorsAfterInsert(b.gone, key, ts);
    KeyRemoveTallied(dead.keys, key);
    hide FloorsHold;
  }

  lemma CompleteSound(c: Cell, key: Text, f: Fill)
    requires Sound(c.bucket)
    ensures Sound(CompleteCell(c, key, f).bucket)
  {
    if CompletionOf(c.bucket, key, f).Completed? {
      InsertRowSound(c, key, Filled(c.bucket.keys.rows[key], f));
    }
    hide Sound, InsertRow;
  }

  lemma FenceSound(b: Bucket, key: Text)
    requires Sound(b)
    ensures Sound(FenceBucket(b, key))
  {
    hide Utf8, Tabled;
    SameTables(b, FenceBucket(b, key));
  }

  lemma ResolveSound(c: Cell, key: Text, token: nat, truth: Authoritative)
    requires Sound(c.bucket)
    ensures Sound(ResolveCell(c, key, token, truth).bucket)
  {
    if OwnsFence(c.bucket, key, token) {
      match truth {
        case Present(e) =>
          ForgetSound(c.bucket, key);
          var b := c.bucket.(gone := GoneRemove(c.bucket.gone, key));
          SettleSound(b, key);
          InsertRowSound(Cell(Settle(b, key), c.total), key, e);
        case Absent(now) =>
          AbsentSound(c.bucket, key, now, c.total);
      }
    }
    hide Sound, InsertRow, RemoveRow, GoneRemove, GoneRaise;
  }

  lemma AbsentSound(b: Bucket, key: Text, now: Time, total: Stats)
    requires Sound(b)
    ensures Sound(RemoveRow(Cell(Settle(b.(gone := GoneRaise(b.gone, key, now)), key), total), key).bucket)
  {
    hide Utf8, KeysTallied, GoneTallied, Replace;
    GoneInsertTallied(b.gone, key, now);
    FloorsAfterInsert(b.gone, key, now);
    KeyRemoveTallied(b.keys, key);
    hide FloorsHold;
  }

  lemma RebuiltSound(b: Bucket)
    requires Sound(b)
    ensures Sound(Discarded(b)) && Sound(Resynced(b)) && Sound(Finished(b))
  {
    EmptySound();
    hide Utf8, KeysTallied, GoneTallied, FloorsHold;
  }

  lemma {:induction false} ListRowsSound(c: Cell, rows: seq<Listed>)
    requires Sound(c.bucket)
    ensures Sound(ListRows(c, rows).bucket)
  {
    hide Sound, InsertRow;
    if rows != [] {
      var before := ListRows(c, rows[..|rows| - 1]);
      var row := rows[|rows| - 1];
      ListRowsSound(c, rows[..|rows| - 1]);
      if ListAccepted(before.bucket, row.key, row.entry.lastModified) {
        InsertRowSound(before, row.key, row.entry);
      }
    }
  }

  // ----- decoding and staging, whatever the bytes -----

  lemma {:induction false} GoneTableFrom(rows: seq<Tombstone>, k: Text)
    requires k in GoneTableOf(rows).rows
    ensures Tombstone(k, GoneTableOf(rows).rows[k]) in rows
  {
    hide GoneInsert, Utf8;
    var n := |rows| - 1;
    var t := GoneTableOf(rows[..n]);
    TombsInserted(t, rows[n].key, rows[n].at);
    assert rows == rows[..n] + [rows[n]];
    if k == rows[n].key {
      assert rows[n] == Tombstone(k, rows[n].at);
    } else {
      GoneTableFrom(rows[..n], k);
    }
  }

  /** The decoder lets no tombstone reach a row already read. */
  lemma {:induction false} ReadGonesExclude(s: seq<byte>, n: nat, left: nat, cap: nat, previous: Option<Text>,
                                            live: map<Text, Entry>)
    requires ReadGones(s, n, left, cap, previous, live).Ok?
    ensures forall g :: g in ReadGones(s, n, left, cap, previous, live).value.value.rows && g.key in live ==>
        g.at < live[g.key].lastModified
    decreases n
  {
    hide Utf8, ReadText, ReadTime, Less, GoneCharge;
    if n > 0 {
      var key := ReadText(s, cap).value;
      var at := ReadTime(key.rest).value;
      ReadGonesExclude(at.rest, n - 1, left - GoneCharge(|key.value|), cap, Some(key.value), live);
    }
  }

  /** A bucket of a private stage: complete and without local history. */
  ghost predicate Private(b: Bucket) {
    Sound(b) && b.synced && b.generation == 0 && b.rebuild == None && b.touched == {}
      && b.epoch == 0 && b.fences == map[]
  }

  ghost predicate AllPrivate(buckets: map<Text, Bucket>) {
    forall name :: name in buckets ==> Private(buckets[name])
  }

  lemma ReadBucketPrivate(s: seq<byte>, left: nat, rows: nat, caps: Caps, previous: Option<Text>)
    requires ReadBucket(s, left, rows, caps, previous).Ok?
    ensures Private(ReadBucket(s, left, rows, caps, previous).value.value.bucket)
  {
    hide Utf8, ReadText, ReadLe, ReadKeys, ReadGones, Less, NameSize, KeyTableOf, GoneTableOf, StatsOfRows, KeysTallied,
         GoneTallied, FloorsHold;
    var name := ReadText(s, caps.names).value;
    var left1 := left - NameSize(name.value).charge;
    var keyCount := ReadLe(name.rest, 4).value;
    var keys := ReadKeys(keyCount.rest, keyCount.value, left1, caps.names, None).value;
    var goneCount := ReadLe(keys.rest, 4).value;
    var live := KeyTableOf(keys.value.rows).rows;
    var gone := ReadGones(goneCount.rest, goneCount.value, keys.value.left, caps.names, None, live).value;
    ReadGonesExclude(goneCount.rest, goneCount.value, keys.value.left, caps.names, None, live);
    KeyTableTallied(keys.value.rows);
    GoneTableSound(gone.value.rows);
    forall k | k in GoneTableOf(gone.value.rows).rows
      ensures Tombstone(k, GoneTableOf(gone.value.rows).rows[k]) in gone.value.rows
    {
      GoneTableFrom(gone.value.rows, k);
    }
    var b := DecodedBucket(keys.value.rows, gone.value.rows);
    forall k | k in b.keys.rows && k in b.gone.rows ensures b.gone.rows[k] < b.keys.rows[k].lastModified {
      assert Tombstone(k, b.gone.rows[k]) in gone.value.rows;
    }
  }

  lemma {:induction false} ReadBucketsPrivate(s: seq<byte>, n: nat, left: nat, rows: nat, caps: Caps,
                                              previous: Option<Text>, done: Decoded)
    requires AllPrivate(done.buckets) && ReadBuckets(s, n, left, rows, caps, previous, done).Ok?
    ensures AllPrivate(ReadBuckets(s, n, left, rows, caps, previous, done).value.value.buckets)
    decreases n
  {
    hide Utf8, ReadBucket, Replace, Private;
    if n > 0 {
      var b := ReadBucket(s, left, rows, caps, previous).value;
      ReadBucketPrivate(s, left, rows, caps, previous);
      ReadBucketsPrivate(b.rest, n - 1, b.value.left, b.value.rows, caps, Some(b.value.name),
                         Decoded(done.buckets[b.value.name := b.value.bucket],
                                 Replace(done.stats, NO_STATS, b.value.bucket.stats)));
    }
  }

  lemma DecodePrivate(bytes: seq<byte>, caps: Caps)
    requires DecodeImage(bytes, caps).Ok?
    ensures AllPrivate(DecodeImage(bytes, caps).value.buckets)
  {
    hide Utf8, ReadLe, ReadBuckets, HeaderSize, Private;
    var count := ReadLe(bytes[1..], 4).value;
    ReadBucketsPrivate(count.rest, count.value, caps.decoded - HeaderSize(count.value).charge, 0, caps, None, NOTHING);
  }

  lemma PutKeepsHistory(c: Cell, key: Text, e: Entry)
    requires c.bucket.rebuild == None
    ensures var b := PutCell(c, key, e, true).bucket;
      b == c.bucket.(keys := b.keys, stats := b.stats, fences := b.fences)
        && (c.bucket.fences == map[] ==> b.fences == map[])
  {
    hide KeyInsert, Replace, DeadSince, NewerRow;
  }

  lemma DelKeepsHistory(c: Cell, key: Text, ts: Time)
    requires c.bucket.rebuild == None
    ensures var b := DelCell(c, key, ts, false).bucket;
      b == c.bucket.(keys := b.keys, gone := b.gone, stats := b.stats, fences := b.fences)
        && (c.bucket.fences == map[] ==> b.fences == map[])
  {
    hide KeyRemove, Replace, NewerRow, GoneRaise, GoneInsert;
  }

  lemma StageStepPrivate(g: Stage, d: Delta.Delta, caps: Caps)
    requires AllPrivate(g.buckets) && StageStep(g, d, caps).Ok?
    ensures AllPrivate(StageStep(g, d, caps).value.buckets)
    ensures StageStep(g, d, caps).value.buckets.Keys == g.buckets.Keys
  {
    if !d.Noop? {
      var c := Cell(g.buckets[d.bucket], g.stats);
      assert Private(g.buckets[d.bucket]);
      if d.Put? {
        PutSound(c, d.key, d.entry, true);
        PutKeepsHistory(c, d.key, d.entry);
      } else {
        DelSound(c, d.key, d.at, false);
        DelKeepsHistory(c, d.key, d.at);
      }
      hide Sound, PutCell, DelCell, BucketRows;
    }
  }

  lemma {:induction false} StageAllPrivate(g: Stage, effects: seq<Delta.Delta>, caps: Caps)
    requires AllPrivate(g.buckets) && StageAll(g, effects, caps).Ok?
    ensures AllPrivate(StageAll(g, effects, caps).value.buckets)
    ensures StageAll(g, effects, caps).value.buckets.Keys == g.buckets.Keys
  {
    hide AllPrivate, StageStep;
    if effects != [] {
      StageAllPrivate(g, effects[..|effects| - 1], caps);
      StageStepPrivate(StageAll(g, effects[..|effects| - 1], caps).value, effects[|effects| - 1], caps);
    }
  }

  lemma StagedPrivate(image: seq<byte>, effects: seq<Delta.Delta>, caps: Caps)
    requires Staged(image, effects, caps).Ok?
    ensures AllPrivate(Staged(image, effects, caps).value.buckets)
  {
    hide AllPrivate, DecodeImage, StageAll;
    DecodePrivate(image, caps);
    StageAllPrivate(StageOf(DecodeImage(image, caps).value), effects, caps);
  }
}
