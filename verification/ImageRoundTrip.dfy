/** Encoding an index and decoding the bytes gives back its skeletal rows, when its
    measured size is what the caps allow and not a byte less. */
module ImageRoundTrip {
  import opened Base
  import opened Ordered
  import opened Sums
  import opened Entries
  import opened Rows
  import opened Wire
  import opened Buckets
  import opened Image
  import opened ImageCodec

  function SkeletonMap(rows: map<Text, Entry>): map<Text, Entry> {
    map k | k in rows :: Skeleton(rows[k])
  }

  // ----- rows -----

  function SkeletonRows(b: Bucket, keys: seq<Text>): seq<Listed>
    requires forall k :: k in keys ==> k in b.keys.rows
  {
    seq(|keys|, i requires 0 <= i < |keys| => Listed(keys[i], Skeleton(b.keys.rows[keys[i]])))
  }

  function TombstoneRows(b: Bucket, keys: seq<Text>): seq<Tombstone>
    requires forall k :: k in keys ==> k in b.gone.rows
  {
    seq(|keys|, i requires 0 <= i < |keys| => Tombstone(keys[i], b.gone.rows[keys[i]]))
  }

  /** Every row fits the codec's caps, and no tombstone contradicts a row. */
  predicate RowsFit(b: Bucket, cap: nat) {
    && (forall k :: k in b.keys.rows ==> EntryFits(k, b.keys.rows[k], cap))
    && (forall k :: k in b.gone.rows ==> NameFits(k, cap) && b.gone.rows[k] >= 0 && !Contradicts(b, k))
  }

  lemma FitIsWritable(b: Bucket, cap: nat)
    requires RowsFit(b, cap)
    ensures RowsWritable(b)
  {}

  lemma SkeletonRowsSplit(b: Bucket, keys: seq<Text>)
    requires keys != [] && forall k :: k in keys ==> k in b.keys.rows
    ensures SkeletonRows(b, keys) == [Listed(keys[0], Skeleton(b.keys.rows[keys[0]]))] + SkeletonRows(b, keys[1..])
  {}

  lemma TombstoneRowsSplit(b: Bucket, keys: seq<Text>)
    requires keys != [] && forall k :: k in keys ==> k in b.gone.rows
    ensures TombstoneRows(b, keys) == [Tombstone(keys[0], b.gone.rows[keys[0]])] + TombstoneRows(b, keys[1..])
  {}

  function KeysRead(b: Bucket, keys: seq<Text>, left: nat, charge: nat, q: seq<byte>): Parse<KeyList>
    requires forall k :: k in keys ==> k in b.keys.rows
  {
    if charge <= left then Ok(Parsed(KeyList(SkeletonRows(b, keys), left - charge), q)) else Err(Capacity)
  }

  lemma ReadKeysStep(b: Bucket, keys: seq<Text>, s: seq<byte>, q: seq<byte>, left: nat, cap: nat,
                     previous: Option<Text>, more: seq<byte>, charge: nat)
    requires keys != [] && forall k :: k in keys ==> k in b.keys.rows
    requires Follows(previous, keys[0])
    requires ReadEntry(s, left, cap) == RowRead(keys[0], b.keys.rows[keys[0]], left, more)
    requires forall left': nat {:trigger ReadKeys(more, |keys| - 1, left', cap, Some(keys[0]))} ::
               ReadKeys(more, |keys| - 1, left', cap, Some(keys[0])) == KeysRead(b, keys[1..], left', charge, q)
    ensures ReadKeys(s, |keys|, left, cap, previous) ==
            KeysRead(b, keys, left, KeyChargeAt(b, keys[0]) + charge, q)
  {
    hide Utf8, Less, ReadEntry, EntryCharge;
    SkeletonRowsSplit(b, keys);
    if KeyChargeAt(b, keys[0]) <= left {
      assert ReadKeys(more, |keys| - 1, left - KeyChargeAt(b, keys[0]), cap, Some(keys[0]))
          == KeysRead(b, keys[1..], left - KeyChargeAt(b, keys[0]), charge, q);
    }
  }

  function KeyChargeAt(b: Bucket, k: Text): nat
    requires k in b.keys.rows
  {
    EntryCharge(|k|, b.keys.rows[k])
  }

  ghost function KeysCharge(b: Bucket, keys: seq<Text>): nat
    requires forall k :: k in keys ==> k in b.keys.rows
  {
    if keys == [] then 0 else KeyChargeAt(b, keys[0]) + KeysCharge(b, keys[1..])
  }

  lemma {:induction false} ReadKeysRoundTrip(b: Bucket, keys: seq<Text>, left: nat, cap: nat, previous: Option<Text>,
                                             q: seq<byte>)
    requires RowsWritable(b) && RowsFit(b, cap)
    requires Ascending(keys) && forall k :: k in keys ==> k in b.keys.rows
    requires keys != [] ==> Follows(previous, keys[0])
    ensures ReadKeys(KeysLayout(b, keys) + q, |keys|, left, cap, previous) ==
            KeysRead(b, keys, left, KeysCharge(b, keys), q)
    decreases |keys|
  {
    hide Utf8, Less, ReadEntry, EntryCharge, EntryLayout, EntryFits, SkeletonRows;
    if keys == [] {
      assert SkeletonRows(b, keys) == [] by { SkeletonRowsEmpty(b); }
      assert KeysLayout(b, keys) + q == q;
    } else {
      var k := keys[0];
      var e := b.keys.rows[k];
      var more := KeysLayout(b, keys[1..]) + q;
      assert KeysLayout(b, keys) + q == EntryLayout(k, e) + more by {
        Associate(EntryLayout(k, e), KeysLayout(b, keys[1..]), q);
      }
      ReadEntryRoundTrip(k, e, left, cap, more);
      forall left': nat {:trigger ReadKeys(more, |keys| - 1, left', cap, Some(k))}
        ensures ReadKeys(more, |keys| - 1, left', cap, Some(k)) ==
            KeysRead(b, keys[1..], left', KeysCharge(b, keys[1..]), q)
      {
        ReadKeysRoundTrip(b, keys[1..], left', cap, Some(k), q);
      }
      ReadKeysStep(b, keys, EntryLayout(k, e) + more, q, left, cap, previous, more, KeysCharge(b, keys[1..]));
    }
  }

  lemma SkeletonRowsEmpty(b: Bucket)
    ensures SkeletonRows(b, []) == [] && TombstoneRows(b, []) == []
  {}

  function GonesRead(b: Bucket, keys: seq<Text>, left: nat, charge: nat, q: seq<byte>): Parse<GoneList>
    requires forall k :: k in keys ==> k in b.gone.rows
  {
    if charge <= left then Ok(Parsed(GoneList(TombstoneRows(b, keys), left - charge), q)) else Err(Capacity)
  }

  ghost function GonesCharge(keys: seq<Text>): nat {
    if keys == [] then 0 else GoneCharge(|keys[0]|) + GonesCharge(keys[1..])
  }

  lemma ReadGonesStep(b: Bucket, keys: seq<Text>, s: seq<byte>, q: seq<byte>, left: nat, cap: nat,
                      previous: Option<Text>, live: map<Text, Entry>, mid: seq<byte>, more: seq<byte>, charge: nat)
    requires keys != [] && forall k :: k in keys ==> k in b.gone.rows
    requires Follows(previous, keys[0])
    requires ReadText(s, cap) == Ok(Parsed(keys[0], mid))
    requires ReadTime(mid) == Ok(Parsed(b.gone.rows[keys[0]], more))
    requires !(keys[0] in live && b.gone.rows[keys[0]] >= live[keys[0]].lastModified)
    requires forall left': nat {:trigger ReadGones(more, |keys| - 1, left', cap, Some(keys[0]), live)} ::
               ReadGones(more, |keys| - 1, left', cap, Some(keys[0]), live) == GonesRead(b, keys[1..], left', charge, q)
    ensures ReadGones(s, |keys|, left, cap, previous, live) ==
            GonesRead(b, keys, left, GoneCharge(|keys[0]|) + charge, q)
  {
    hide Utf8, Less, ReadText, ReadTime, GoneCharge;
    TombstoneRowsSplit(b, keys);
    var cost := GoneCharge(|keys[0]|);
    if cost <= left {
      assert ReadGones(more, |keys| - 1, left - cost, cap, Some(keys[0]), live) ==
        GonesRead(b, keys[1..], left - cost, charge, q);
    }
  }

  lemma {:induction false} ReadGonesRoundTrip(b: Bucket, keys: seq<Text>, left: nat, cap: nat, previous: Option<Text>,
                                              live: map<Text, Entry>, q: seq<byte>)
    requires RowsWritable(b) && RowsFit(b, cap) && live == SkeletonMap(b.keys.rows)
    requires Ascending(keys) && forall k :: k in keys ==> k in b.gone.rows
    requires keys != [] ==> Follows(previous, keys[0])
    ensures ReadGones(GonesLayout(b, keys) + q, |keys|, left, cap, previous, live) ==
            GonesRead(b, keys, left, GonesCharge(keys), q)
    decreases |keys|
  {
    hide Utf8, Less, ReadText, ReadTime, GoneCharge, TextLayout, TimeLayout, TombstoneRows;
    if keys == [] {
      SkeletonRowsEmpty(b);
      assert GonesLayout(b, keys) + q == q;
    } else {
      var k := keys[0];
      var at := b.gone.rows[k];
      var more := GonesLayout(b, keys[1..]) + q;
      var mid := TimeLayout(at) + more;
      assert GonesLayout(b, keys) + q == TextLayout(k) + mid by {
        Associate(GoneLayout(k, at), GonesLayout(b, keys[1..]), q);
        Associate(TextLayout(k), TimeLayout(at), more);
      }
      ReadTextRoundTrip(k, cap, mid);
      ReadTimeRoundTrip(at, more);
      forall left': nat {:trigger ReadGones(more, |keys| - 1, left', cap, Some(k), live)}
        ensures ReadGones(more, |keys| - 1, left', cap, Some(k), live) ==
            GonesRead(b, keys[1..], left', GonesCharge(keys[1..]), q)
      {
        ReadGonesRoundTrip(b, keys[1..], left', cap, Some(k), live, q);
      }
      ReadGonesStep(b, keys, TextLayout(k) + mid, q, left, cap, previous, live, mid, more, GonesCharge(keys[1..]));
    }
  }

  // ----- tables -----

  lemma SkeletonRowsPrefix(b: Bucket, keys: seq<Text>)
    requires keys != [] && forall k :: k in keys ==> k in b.keys.rows
    ensures var n := |keys| - 1; var rows := SkeletonRows(b, keys);
      && |rows| == |keys| && rows[..n] == SkeletonRows(b, keys[..n])
      && rows[n] == Listed(keys[n], Skeleton(b.keys.rows[keys[n]]))
  {}

  lemma RowsInserted(t: KeyRows, key: Text, e: Entry)
    ensures KeyInsert(t, key, e).rows == t.rows[key := e]
  {
    hide AddTally, SubTally, EntryTally, Utf8;
  }

  lemma TombsInserted(t: GoneRows, key: Text, at: Time)
    ensures GoneInsert(t, key, at).rows == t.rows[key := at]
  {
    hide AddTally, SubTally, GoneTally, Behind, Lower, Utf8;
  }

  lemma {:induction false} KeyTableTallied(rows: seq<Listed>)
    ensures KeysTallied(KeyTableOf(rows))
  {
    hide KeysTallied, KeyInsert, Utf8;
    if rows == [] {
      NoKeysTallied();
    } else {
      var n := |rows| - 1;
      KeyTableTallied(rows[..n]);
      KeyInsertTallied(KeyTableOf(rows[..n]), rows[n].key, rows[n].entry);
    }
  }

  lemma {:induction false} KeyTableRows(b: Bucket, keys: seq<Text>)
    requires forall k :: k in keys ==> k in b.keys.rows
    ensures KeyTableOf(SkeletonRows(b, keys)).rows == map k | k in keys :: Skeleton(b.keys.rows[k])
  {
    hide KeyInsert, Skeleton, Utf8;
    if keys == [] {
      SkeletonRowsEmpty(b);
    } else {
      var n := |keys| - 1;
      KeyTableRows(b, keys[..n]);
      SkeletonRowsPrefix(b, keys);
      var rows := SkeletonRows(b, keys);
      hide SkeletonRows;
      RowsInserted(KeyTableOf(rows[..n]), rows[n].key, rows[n].entry);
      assert keys == keys[..n] + [keys[n]];
    }
  }

  lemma KeyTableHolds(b: Bucket, keys: seq<Text>)
    requires forall k :: k in keys ==> k in b.keys.rows
    ensures var t := KeyTableOf(SkeletonRows(b, keys));
      && KeysTallied(t)
      && (forall k :: k in t.rows <==> k in keys)
      && (forall k :: k in t.rows ==> t.rows[k] == Skeleton(b.keys.rows[k]))
  {
    hide KeysTallied, KeyTableOf, SkeletonRows, Skeleton, Utf8;
    KeyTableTallied(SkeletonRows(b, keys));
    KeyTableRows(b, keys);
  }

  lemma NoKeysTallied()
    ensures KeysTallied(NO_KEYS) && GoneTallied(NO_GONE)
  {
    assert Sum(NO_KEYS.rows, KeyEncoded) == 0 && Sum(NO_KEYS.rows, KeyDecoded) == 0;
    assert Sum(NO_GONE.rows, GoneEncoded) == 0 && Sum(NO_GONE.rows, GoneDecoded) == 0;
  }

  lemma TombstoneRowsPrefix(b: Bucket, keys: seq<Text>)
    requires keys != [] && forall k :: k in keys ==> k in b.gone.rows
    ensures var n := |keys| - 1; var rows := TombstoneRows(b, keys);
      && |rows| == |keys| && rows[..n] == TombstoneRows(b, keys[..n])
      && rows[n].key == keys[n] && rows[n].at == b.gone.rows[keys[n]]
  {}

  lemma {:induction false} GoneTableSound(rows: seq<Tombstone>)
    ensures GoneTallied(GoneTableOf(rows)) && FloorsHold(GoneTableOf(rows))
  {
    hide GoneTallied, FloorsHold, GoneInsert, Utf8;
    if rows == [] {
      NoKeysTallied();
      FloorsOfNothing();
    } else {
      var n := |rows| - 1;
      GoneTableSound(rows[..n]);
      GoneInsertTallied(GoneTableOf(rows[..n]), rows[n].key, rows[n].at);
      FloorsAfterInsert(GoneTableOf(rows[..n]), rows[n].key, rows[n].at);
    }
  }

  lemma {:induction false} GoneTableRows(b: Bucket, keys: seq<Text>)
    requires forall k :: k in keys ==> k in b.gone.rows
    ensures GoneTableOf(TombstoneRows(b, keys)).rows == map k | k in keys :: b.gone.rows[k]
  {
    hide GoneInsert, Utf8;
    if keys == [] {
      SkeletonRowsEmpty(b);
    } else {
      var n := |keys| - 1;
      GoneTableRows(b, keys[..n]);
      TombstoneRowsPrefix(b, keys);
      var rows := TombstoneRows(b, keys);
      hide TombstoneRows;
      TombsInserted(GoneTableOf(rows[..n]), rows[n].key, rows[n].at);
      assert keys == keys[..n] + [keys[n]];
    }
  }

  lemma GoneTableHolds(b: Bucket, keys: seq<Text>)
    requires forall k :: k in keys ==> k in b.gone.rows
    ensures var t := GoneTableOf(TombstoneRows(b, keys));
      && GoneTallied(t) && FloorsHold(t)
      && (forall k :: k in t.rows <==> k in keys)
      && (forall k :: k in t.rows ==> t.rows[k] == b.gone.rows[k])
  {
    hide GoneTallied, FloorsHold, GoneTableOf, TombstoneRows, Utf8;
    GoneTableSound(TombstoneRows(b, keys));
    GoneTableRows(b, keys);
  }

  lemma FloorsOfNothing()
    ensures FloorsHold(NO_GONE)
  {}

  // ----- one bucket -----

  /** A decoded bucket: complete, without local history, holding the rows of `b` without
      Content-Type and user metadata and its tombstones. */
  ghost predicate Mirrors(d: Bucket, b: Bucket) {
    && d == EMPTY_BUCKET.(synced := true, keys := d.keys, gone := d.gone, stats := d.stats)
    && d.keys.rows == SkeletonMap(b.keys.rows)
    && d.gone.rows == b.gone.rows
    && KeysTallied(d.keys) && GoneTallied(d.gone) && FloorsHold(d.gone)
  }

  lemma OrdersHold(b: Bucket)
    ensures Ascending(KeyOrder(b)) && |KeyOrder(b)| == |b.keys.rows|
    ensures Ascending(GoneOrder(b)) && |GoneOrder(b)| == |b.gone.rows|
  {
    SortedAscends(b.keys.rows.Keys);
    SortedAscends(b.gone.rows.Keys);
  }

  lemma DecodedMirrors(b: Bucket)
    ensures var keys := SkeletonRows(b, KeyOrder(b));
      && Mirrors(DecodedBucket(keys, TombstoneRows(b, GoneOrder(b))), b)
      && KeyTableOf(keys).rows == SkeletonMap(b.keys.rows)
  {
    hide KeysTallied, GoneTallied, FloorsHold, KeyTableOf, GoneTableOf, StatsOfRows, Sorted, Ascending, Skeleton;
    OrdersHold(b);
    KeyTableHolds(b, KeyOrder(b));
    GoneTableHolds(b, GoneOrder(b));
    assert KeyTableOf(SkeletonRows(b, KeyOrder(b))).rows == SkeletonMap(b.keys.rows);
    assert GoneTableOf(TombstoneRows(b, GoneOrder(b))).rows == b.gone.rows;
  }

  ghost function BucketCharge(name: Text, b: Bucket): nat {
    NameSize(name).charge + KeysCharge(b, KeyOrder(b)) + GonesCharge(GoneOrder(b))
  }

  ghost predicate BucketReadIs(r: Parse<BucketRead>, name: Text, b: Bucket, left: nat, rows: nat, q: seq<byte>) {
    if BucketCharge(name, b) <= left then
      && r.Ok? && r.value.rest == q
      && r.value.value.name == name
      && r.value.value.left == left - BucketCharge(name, b)
      && r.value.value.rows == rows + |b.keys.rows| + |b.gone.rows|
      && Mirrors(r.value.value.bucket, b)
    else r == Err(Capacity)
  }

  lemma ReadBucketStep(name: Text, b: Bucket, s: seq<byte>, q: seq<byte>, left: nat, rows: nat, caps: Caps,
                       previous: Option<Text>, s1: seq<byte>, s2: seq<byte>, s3: seq<byte>, s4: seq<byte>)
    requires Follows(previous, name) && rows + |b.keys.rows| + |b.gone.rows| <= caps.rows
    requires ReadText(s, caps.names) == Ok(Parsed(name, s1))
    requires ReadLe(s1, 4) == Ok(Parsed(|b.keys.rows|, s2))
    requires forall left': nat {:trigger ReadKeys(s2, |b.keys.rows|, left', caps.names, None)} ::
               ReadKeys(s2, |b.keys.rows|, left', caps.names, None) ==
                 KeysRead(b, KeyOrder(b), left', KeysCharge(b, KeyOrder(b)), s3)
    requires ReadLe(s3, 4) == Ok(Parsed(|b.gone.rows|, s4))
    requires forall left': nat {:trigger ReadGones(s4, |b.gone.rows|, left', caps.names, None,
                                                   SkeletonMap(b.keys.rows))} ::
               ReadGones(s4, |b.gone.rows|, left', caps.names, None, SkeletonMap(b.keys.rows))
                 == GonesRead(b, GoneOrder(b), left', GonesCharge(GoneOrder(b)), q)
    ensures BucketReadIs(ReadBucket(s, left, rows, caps, previous), name, b, left, rows, q)
  {
    hide Utf8, Less, ReadText, ReadLe, ReadKeys, ReadGones, NameSize, KeysCharge, GonesCharge, Sorted, SkeletonRows,
         TombstoneRows, DecodedBucket, KeyTableOf, Mirrors, SkeletonMap;
    DecodedMirrors(b);
    var left1 := left - NameSize(name).charge;
    if left1 >= 0 {
      assert ReadKeys(s2, |b.keys.rows|, left1, caps.names, None) ==
        KeysRead(b, KeyOrder(b), left1, KeysCharge(b, KeyOrder(b)), s3);
      var left2 := left1 - KeysCharge(b, KeyOrder(b));
      if left2 >= 0 {
        assert ReadGones(s4, |b.gone.rows|, left2, caps.names, None, SkeletonMap(b.keys.rows))
            == GonesRead(b, GoneOrder(b), left2, GonesCharge(GoneOrder(b)), q);
      }
    }
  }

  lemma BucketLayoutSplit(name: Text, b: Bucket, q: seq<byte>)
    requires RowsWritable(b)
    ensures BucketLayout(name, b) + q ==
            TextLayout(name) + (Le(|b.keys.rows|, 4)
                                + (KeysLayout(b, KeyOrder(b))
                                   + (Le(|b.gone.rows|, 4) + (GonesLayout(b, GoneOrder(b)) + q))))
  {
    hide TextLayout, Le, KeysLayout, GonesLayout, RowsWritable, Sorted;
    var (keys, gones) := (KeysLayout(b, KeyOrder(b)), GonesLayout(b, GoneOrder(b)));
    Associate(Le(|b.gone.rows|, 4), gones, q);
    Associate(keys, TombstonesLayout(b), q);
    Associate(Le(|b.keys.rows|, 4), keys + TombstonesLayout(b), q);
    Associate(TextLayout(name), RowsLayout(b), q);
  }

  lemma ReadBucketRoundTrip(name: Text, b: Bucket, left: nat, rows: nat, caps: Caps, previous: Option<Text>,
                            q: seq<byte>)
    requires RowsWritable(b) && RowsFit(b, caps.names) && NameFits(name, caps.names)
    requires Follows(previous, name) && rows + |b.keys.rows| + |b.gone.rows| <= caps.rows <= 2_000_000
    ensures BucketReadIs(ReadBucket(BucketLayout(name, b) + q, left, rows, caps, previous), name, b, left, rows, q)
  {
    hide Utf8, Less, ReadText, ReadLe, ReadKeys, ReadGones, NameFits, RowsFit, RowsWritable, KeysLayout, GonesLayout,
         TextLayout, Le, Sorted, BucketReadIs, ReadBucket, BucketLayout, KeysRead, GonesRead, KeysCharge, GonesCharge,
         SkeletonMap;
    Widths();
    OrdersHold(b);
    var s4 := GonesLayout(b, GoneOrder(b)) + q;
    var s3 := Le(|b.gone.rows|, 4) + s4;
    var s2 := KeysLayout(b, KeyOrder(b)) + s3;
    var s1 := Le(|b.keys.rows|, 4) + s2;
    BucketLayoutSplit(name, b, q);
    ReadTextRoundTrip(name, caps.names, s1);
    ReadLeRoundTrip(|b.keys.rows|, 4, s2);
    ReadLeRoundTrip(|b.gone.rows|, 4, s4);
    forall left': nat {:trigger ReadKeys(s2, |b.keys.rows|, left', caps.names, None)}
      ensures ReadKeys(s2, |b.keys.rows|, left', caps.names, None) ==
          KeysRead(b, KeyOrder(b), left', KeysCharge(b, KeyOrder(b)), s3)
    {
      ReadKeysRoundTrip(b, KeyOrder(b), left', caps.names, None, s3);
    }
    forall left': nat {:trigger ReadGones(s4, |b.gone.rows|, left', caps.names, None, SkeletonMap(b.keys.rows))}
      ensures ReadGones(s4, |b.gone.rows|, left', caps.names, None, SkeletonMap(b.keys.rows))
              == GonesRead(b, GoneOrder(b), left', GonesCharge(GoneOrder(b)), q)
    {
      ReadGonesRoundTrip(b, GoneOrder(b), left', caps.names, None, SkeletonMap(b.keys.rows), q);
    }
    ReadBucketStep(name, b, TextLayout(name) + s1, q, left, rows, caps, previous, s1, s2, s3, s4);
  }

  // ----- sizes -----

  lemma {:induction false} KeySizes(b: Bucket, keys: seq<Text>)
    requires forall k :: k in keys ==> k in b.keys.rows
    ensures KeysCharge(b, keys) == SeqSum(b.keys.rows, keys, KeyCharge)
    ensures RowsWritable(b) ==> |KeysLayout(b, keys)| == SeqSum(b.keys.rows, keys, KeyBytes)
  {
    hide EntryCharge, EntryBytes, EntryLayout;
    if keys != [] {
      KeySizes(b, keys[1..]);
      if RowsWritable(b) { LayoutSizes(keys[0], b.keys.rows[keys[0]], 0); }
    }
  }

  lemma {:induction false} GoneSizes(b: Bucket, keys: seq<Text>)
    requires forall k :: k in keys ==> k in b.gone.rows
    ensures GonesCharge(keys) == SeqSum(b.gone.rows, keys, TombCharge)
    ensures RowsWritable(b) ==> |GonesLayout(b, keys)| == SeqSum(b.gone.rows, keys, TombBytes)
  {
    hide GoneCharge, GoneBytes, GoneLayout;
    if keys != [] {
      GoneSizes(b, keys[1..]);
      if RowsWritable(b) { LayoutSizes(keys[0], BlankEntry(0), b.gone.rows[keys[0]]); }
    }
  }

  lemma BucketSizes(name: Text, b: Bucket)
    ensures BucketCharge(name, b) == NameSize(name).charge + RowsSize(b).charge
    ensures RowsWritable(b) ==> |BucketLayout(name, b)| == NameSize(name).bytes + RowsSize(b).bytes
  {
    hide KeysCharge, GonesCharge, KeysLayout, GonesLayout, Ascending, Le;
    OrdersHold(b);
    KeySizes(b, KeyOrder(b));
    GoneSizes(b, GoneOrder(b));
    AscendingDistinct(KeyOrder(b));
    AscendingDistinct(GoneOrder(b));
    SeqSumIsSum(b.keys.rows, KeyOrder(b), KeyCharge);
    SeqSumIsSum(b.keys.rows, KeyOrder(b), KeyBytes);
    SeqSumIsSum(b.gone.rows, GoneOrder(b), TombCharge);
    SeqSumIsSum(b.gone.rows, GoneOrder(b), TombBytes);
  }

  ghost function BucketSize(name: Text, b: Bucket): Size { Plus(NameSize(name), RowsSize(b)) }

  lemma {:induction false} MeasuredFront(buckets: map<Text, Bucket>, names: seq<Text>)
    requires names != [] && forall name :: name in names ==> name in buckets
    ensures MeasuredUpTo(buckets, names) == Plus(BucketSize(names[0], buckets[names[0]]),
                                                 MeasuredUpTo(buckets, names[1..]))
    decreases |names|
  {
    hide NameSize, RowsSize;
    var n := |names| - 1;
    if n == 0 {
      assert names[..0] == [] && names[1..] == [];
    } else {
      MeasuredFront(buckets, names[..n]);
      assert names[..n][1..] == names[1..][..n - 1];
      assert names[1..][n - 1] == names[n];
    }
  }

  // ----- the whole image -----

  ghost predicate AllFit(buckets: map<Text, Bucket>, names: seq<Text>, cap: nat) {
    forall name :: name in names ==>
      name in buckets && NameFits(name, cap) && RowsFit(buckets[name], cap) && RowsWritable(buckets[name])
  }

  /** `d` holds a mirror of each named bucket, and otherwise what `done` held. */
  ghost predicate Restores(d: Decoded, done: Decoded, buckets: map<Text, Bucket>, names: seq<Text>)
    requires forall name :: name in names ==> name in buckets
  {
    && (forall name :: name in names ==> name in d.buckets && Mirrors(d.buckets[name], buckets[name]))
    && (forall name :: name !in names ==> (name in d.buckets <==> name in done.buckets))
    && (forall name :: name !in names && name in done.buckets ==> d.buckets[name] == done.buckets[name])
  }

  ghost predicate BucketsReadIs(r: Parse<Decoded>, done: Decoded, buckets: map<Text, Bucket>, names: seq<Text>,
                                left: nat, q: seq<byte>)
    requires forall name :: name in names ==> name in buckets
  {
    if MeasuredUpTo(buckets, names).charge <= left
    then r.Ok? && r.value.rest == q && Restores(r.value.value, done, buckets, names)
    else r == Err(Capacity)
  }

  lemma RestoresCons(d: Decoded, done: Decoded, mid: Decoded, buckets: map<Text, Bucket>, names: seq<Text>)
    requires names != [] && Ascending(names) && forall name :: name in names ==> name in buckets
    requires names[0] in mid.buckets && Mirrors(mid.buckets[names[0]], buckets[names[0]])
    requires mid.buckets == done.buckets[names[0] := mid.buckets[names[0]]]
    requires Restores(d, mid, buckets, names[1..])
    ensures Restores(d, done, buckets, names)
  {
    hide Mirrors, Utf8;
    LessIrreflexive(names[0]);
    assert names[0] !in names[1..];
    hide Less;
    assert forall name :: name in names <==> name == names[0] || name in names[1..];
  }

  lemma {:induction false} ReadBucketsRoundTrip(buckets: map<Text, Bucket>, names: seq<Text>, left: nat, rows: nat,
                                                caps: Caps, previous: Option<Text>, done: Decoded, q: seq<byte>)
    requires AllFit(buckets, names, caps.names) && Ascending(names) && caps.rows <= 2_000_000
    requires rows + MeasuredUpTo(buckets, names).rows <= caps.rows
    requires names != [] ==> Follows(previous, names[0])
    ensures BucketsReadIs(ReadBuckets(BucketsLayout(buckets, names) + q, |names|, left, rows, caps, previous, done),
                          done, buckets, names, left, q)
    decreases |names|
  {
    hide Utf8, Less, NameFits, RowsFit, RowsWritable, ReadBucket, BucketLayout, Mirrors, BucketCharge, NameSize,
         RowsSize, Replace, MeasuredUpTo;
    if names == [] {
      assert BucketsLayout(buckets, names) + q == q;
      MeasuredNothing(buckets);
    } else {
      var (name, b) := (names[0], buckets[names[0]]);
      var more := BucketsLayout(buckets, names[1..]) + q;
      Associate(BucketLayout(name, b), BucketsLayout(buckets, names[1..]), q);
      MeasuredFront(buckets, names);
      BucketSizes(name, b);
      RowsCounted(b);
      NameRows(name);
      ReadBucketRoundTrip(name, b, left, rows, caps, previous, more);
      if BucketCharge(name, b) <= left {
        var one := ReadBucket(BucketLayout(name, b) + more, left, rows, caps, previous).value.value;
        var mid := Decoded(done.buckets[name := one.bucket], Replace(done.stats, NO_STATS, one.bucket.stats));
        ReadBucketsRoundTrip(buckets, names[1..], one.left, one.rows, caps, Some(name), mid, q);
        var r := ReadBuckets(more, |names| - 1, one.left, one.rows, caps, Some(name), mid);
        if r.Ok? { RestoresCons(r.value.value, done, mid, buckets, names); }
      }
    }
  }

  lemma MeasuredNothing(buckets: map<Text, Bucket>)
    ensures MeasuredUpTo(buckets, []) == Size(0, 0, 0)
  {}

  lemma {:induction false} LayoutLength(buckets: map<Text, Bucket>, names: seq<Text>)
    requires AllWritable(buckets, names)
    ensures |BucketsLayout(buckets, names)| == MeasuredUpTo(buckets, names).bytes
  {
    hide BucketLayout, NameSize, RowsSize, RowsWritable, MeasuredUpTo, BucketCharge;
    if names == [] {
      MeasuredNothing(buckets);
    } else {
      LayoutLength(buckets, names[1..]);
      MeasuredFront(buckets, names);
      BucketSizes(names[0], buckets[names[0]]);
    }
  }

  lemma MeasurableFits(buckets: map<Text, Bucket>, universe: seq<Text>, c: Caps)
    requires Measurable(buckets, universe, c) && AllWritable(buckets, universe)
    ensures AllFit(buckets, universe, c.names)
  {
    hide Measured, Ascending, Utf8;
    forall name | name in universe ensures RowsFit(buckets[name], c.names) {
      var b := buckets[name];
      forall k | k in b.keys.rows ensures EntryFits(k, b.keys.rows[k], c.names) {
        assert RowMeasurable(k, b.keys.rows[k], c);
      }
    }
  }

  /** A measured index with writable times encodes into exactly the bytes measured, and
      those bytes decode to its skeletal mirror under exactly the measured caps; with less
      charge, by however little, they are refused. */
  lemma ImageRoundTrips(buckets: map<Text, Bucket>, universe: seq<Text>, c: Caps, charge: nat)
    requires Measurable(buckets, universe, c) && AllWritable(buckets, universe)
    ensures var size := Measured(buckets, universe);
      var bytes := ImageLayout(buckets, universe);
      var r := DecodeImage(bytes, c.(bytes := size.bytes, decoded := charge));
      && |bytes| == size.bytes
      && (size.charge <= charge <= 1_073_741_824 ==> r.Ok? && Restores(r.value, NOTHING, buckets, universe))
      && (charge < size.charge ==> r == Err(Capacity))
  {
    hide Utf8, ReadBuckets, BucketsLayout, MeasuredUpTo, AllWritable, Ascending, Restores, AllFit, ReadLe, Le,
         HeaderSize, Ready, NameAllowed, RowsMeasurable;
    var size := Measured(buckets, universe);
    var caps := c.(bytes := size.bytes, decoded := charge);
    MeasurableFits(buckets, universe, c);
    Widths();
    HeaderBytes(|universe|);
    var body := BucketsLayout(buckets, universe);
    var bytes := ImageLayout(buckets, universe);
    LayoutLength(buckets, universe);
    assert bytes[1..] == Le(|universe|, 4) + body;
    ReadLeRoundTrip(|universe|, 4, body);
    var header := HeaderSize(|universe|).charge;
    if 0 < charge <= 1_073_741_824 && header <= charge {
      assert body + [] == body;
      ReadBucketsRoundTrip(buckets, universe, charge - header, 0, caps, None, NOTHING, []);
    }
  }

  lemma HeaderBytes(n: nat)
    ensures HeaderSize(n).bytes == 5 && HeaderSize(n).charge > 0 && |Le(n, 4)| == 4
  {}

  /** No strict prefix and no extension of a measured image decodes. */
  lemma ImageIsExact(buckets: map<Text, Bucket>, universe: seq<Text>, c: Caps, cut: nat, q: seq<byte>, limit: nat)
    requires Measurable(buckets, universe, c) && AllWritable(buckets, universe)
    requires q != []
    ensures var size := Measured(buckets, universe);
      var bytes := ImageLayout(buckets, universe);
      var caps := c.(bytes := limit, decoded := size.charge);
      && (cut < |bytes| ==> DecodeImage(bytes[..cut], caps).Err?)
      && DecodeImage(bytes + q, caps).Err?
  {
    hide Utf8, Measured, ImageLayout, DecodeImage, Restores, AllWritable, RowsMeasurable;
    var size := Measured(buckets, universe);
    var bytes := ImageLayout(buckets, universe);
    var caps := c.(bytes := limit, decoded := size.charge);
    ImageRoundTrips(buckets, universe, c, size.charge);
    var exact := c.(bytes := size.bytes, decoded := size.charge);
    ImagePrefixFree(bytes, q, exact, caps);
    if cut < |bytes| && DecodeImage(bytes[..cut], caps).Ok? {
      assert bytes[..cut] + bytes[cut..] == bytes;
      ImagePrefixFree(bytes[..cut], bytes[cut..], caps, exact);
      assert false;
    }
  }
}
