/** The image encoder as the program runs it: nested loops over one bounded writer, proved
    to write exactly the layout or to refuse. */
module ImageWriter {
  import opened Base
  import opened Ordered
  import opened Sums
  import opened Entries
  import opened Rows
  import opened Wire
  import opened Buckets
  import opened Image
  import opened ImageCodec
  import opened ImageRoundTrip
  import opened Install
  import opened Carrying
  import opened Streams

  // ----- layouts grow at the end -----

  lemma {:induction false} KeysLayoutSplit(b: Bucket, keys: seq<Text>, i: nat)
    requires RowsWritable(b) && i <= |keys| && forall k :: k in keys ==> k in b.keys.rows
    ensures KeysLayout(b, keys) == KeysLayout(b, keys[..i]) + KeysLayout(b, keys[i..])
  {
    hide EntryLayout, RowsWritable, Utf8;
    if i == 0 {
      assert keys[i..] == keys;
    } else {
      KeysLayoutSplit(b, keys[1..], i - 1);
      assert keys[..i][1..] == keys[1..][..i - 1] && keys[i..] == keys[1..][i - 1..];
    }
  }

  lemma {:induction false} GonesLayoutSplit(b: Bucket, keys: seq<Text>, i: nat)
    requires RowsWritable(b) && i <= |keys| && forall k :: k in keys ==> k in b.gone.rows
    ensures GonesLayout(b, keys) == GonesLayout(b, keys[..i]) + GonesLayout(b, keys[i..])
  {
    hide GoneLayout, RowsWritable, Utf8;
    if i == 0 {
      assert keys[i..] == keys;
    } else {
      GonesLayoutSplit(b, keys[1..], i - 1);
      assert keys[..i][1..] == keys[1..][..i - 1] && keys[i..] == keys[1..][i - 1..];
    }
  }

  lemma {:induction false} BucketsLayoutSplit(buckets: map<Text, Bucket>, names: seq<Text>, i: nat)
    requires AllWritable(buckets, names) && i <= |names|
    ensures AllWritable(buckets, names[..i]) && AllWritable(buckets, names[i..])
    ensures BucketsLayout(buckets, names) == BucketsLayout(buckets, names[..i]) + BucketsLayout(buckets, names[i..])
  {
    hide BucketLayout, RowsWritable, Utf8;
    if i == 0 {
      assert names[i..] == names;
    } else {
      BucketsLayoutSplit(buckets, names[1..], i - 1);
      assert names[..i][1..] == names[1..][..i - 1] && names[i..] == names[1..][i - 1..];
    }
  }

  /** One more row at the end, and never more than all of them. */
  lemma KeysStep(b: Bucket, keys: seq<Text>, i: nat)
    requires RowsWritable(b) && i < |keys| && forall k :: k in keys ==> k in b.keys.rows
    ensures KeysLayout(b, keys[..i + 1]) == KeysLayout(b, keys[..i]) + EntryLayout(keys[i], b.keys.rows[keys[i]])
    ensures |KeysLayout(b, keys[..i + 1])| <= |KeysLayout(b, keys)|
  {
    hide EntryLayout, RowsWritable, Utf8;
    KeysLayoutSplit(b, keys[..i + 1], i);
    KeysLayoutSplit(b, keys, i + 1);
    assert keys[..i + 1][..i] == keys[..i] && keys[..i + 1][i..] == [keys[i]] && keys[i] in keys;
    assert KeysLayout(b, []) == [];
    assert [keys[i]][1..] == [];
    assert EntryLayout(keys[i], b.keys.rows[keys[i]]) + [] == EntryLayout(keys[i], b.keys.rows[keys[i]]) by {
      RowWritable(b, keys[i]);
    }
  }

  lemma RowWritable(b: Bucket, k: Text)
    requires RowsWritable(b) && k in b.keys.rows
    ensures b.keys.rows[k].lastModified >= 0 && (b.keys.rows[k].size.Some? ==> b.keys.rows[k].size.value >= 0)
  {}

  lemma GonesStep(b: Bucket, keys: seq<Text>, i: nat)
    requires RowsWritable(b) && i < |keys| && forall k :: k in keys ==> k in b.gone.rows
    ensures GonesLayout(b, keys[..i + 1]) == GonesLayout(b, keys[..i]) + GoneLayout(keys[i], b.gone.rows[keys[i]])
    ensures |GonesLayout(b, keys[..i + 1])| <= |GonesLayout(b, keys)|
  {
    hide GoneLayout, Utf8;
    GonesLayoutSplit(b, keys[..i + 1], i);
    GonesLayoutSplit(b, keys, i + 1);
    assert keys[..i + 1][..i] == keys[..i] && keys[..i + 1][i..] == [keys[i]] && keys[i] in keys;
    assert GonesLayout(b, []) == [];
    assert [keys[i]][1..] == [];
    assert GoneLayout(keys[i], b.gone.rows[keys[i]]) + [] == GoneLayout(keys[i], b.gone.rows[keys[i]]);
  }

  lemma BucketsStep(buckets: map<Text, Bucket>, names: seq<Text>, i: nat)
    requires AllWritable(buckets, names) && i < |names|
    ensures AllWritable(buckets, names[..i]) && AllWritable(buckets, names[..i + 1])
    ensures names[i] in buckets && RowsWritable(buckets[names[i]])
    ensures BucketsLayout(buckets, names[..i + 1]) ==
        BucketsLayout(buckets, names[..i]) + BucketLayout(names[i], buckets[names[i]])
    ensures |BucketsLayout(buckets, names[..i + 1])| <= |BucketsLayout(buckets, names)|
  {
    hide BucketLayout, RowsWritable, Utf8;
    assert names[i] in names;
    BucketsLayoutSplit(buckets, names, i + 1);
    BucketsLayoutSplit(buckets, names, i);
    BucketsLayoutSplit(buckets, names[..i + 1], i);
    assert names[..i + 1][..i] == names[..i] && names[..i + 1][i..] == [names[i]];
    assert [names[i]][1..] == [];
    assert BucketsLayout(buckets, [names[i]]) == BucketLayout(names[i], buckets[names[i]]) + BucketsLayout(buckets, []);
  }

  // ----- one bucket -----

  ghost predicate KeysFit(b: Bucket, cap: nat) { forall k :: k in b.keys.rows ==> EntryFits(k, b.keys.rows[k], cap) }

  predicate GoneFits(b: Bucket, k: Text, cap: nat)
    requires k in b.gone.rows
  {
    NameFits(k, cap) && b.gone.rows[k] >= 0 && !Contradicts(b, k)
  }

  ghost predicate GonesFit(b: Bucket, cap: nat) { forall k :: k in b.gone.rows ==> GoneFits(b, k, cap) }

  lemma FitParts(b: Bucket, cap: nat)
    ensures RowsFit(b, cap) <==> KeysFit(b, cap) && GonesFit(b, cap)
  {
    hide EntryFits, NameFits, Contradicts, Utf8;
  }

  lemma NoRows(b: Bucket)
    requires RowsWritable(b)
    ensures KeysLayout(b, []) == [] && GonesLayout(b, []) == []
  {}

  method WriteKeys(w: Writer, b: Bucket, cap: nat) returns (r: Written)
    requires w.Valid()
    modifies w
    ensures w.Valid() && (!KeysFit(b, cap) ==> r.Err?)
    ensures RowsFit(b, cap) ==> RowsWritable(b) && Writes(r, old(w.bytes), w.bytes, w.limit, KeysLayout(b, KeyOrder(b)))
  {
    hide EntryFits, EntryLayout, Sorted, RowsWritable, KeysLayout, Utf8;
    FitParts(b, cap);
    ghost var fits := RowsFit(b, cap);
    if fits { FitIsWritable(b, cap); NoRows(b); }
    hide RowsFit;
    var keys := KeyOrder(b);
    for i := 0 to |keys|
      invariant w.Valid()
      invariant forall k :: k in keys[..i] ==> k in b.keys.rows && EntryFits(k, b.keys.rows[k], cap)
      invariant fits ==> w.bytes == old(w.bytes) + KeysLayout(b, keys[..i])
    {
      assert keys[..i + 1] == keys[..i] + [keys[i]] && keys[i] in keys;
      if fits { KeysStep(b, keys, i); }
      var _ :- w.Entry(keys[i], b.keys.rows[keys[i]], cap);
      if fits { Appended(old(w.bytes), KeysLayout(b, keys[..i]), EntryLayout(keys[i], b.keys.rows[keys[i]])); }
    }
    assert keys[..|keys|] == keys;
    return Ok(());
  }

  method WriteGones(w: Writer, b: Bucket, cap: nat) returns (r: Written)
    requires w.Valid()
    modifies w
    ensures w.Valid() && (!GonesFit(b, cap) ==> r.Err?)
    ensures RowsFit(b, cap) ==>
        RowsWritable(b) && Writes(r, old(w.bytes), w.bytes, w.limit, GonesLayout(b, GoneOrder(b)))
  {
    hide NameFits, GoneLayout, Sorted, RowsWritable, GonesLayout, Utf8;
    FitParts(b, cap);
    ghost var fits := RowsFit(b, cap);
    if fits { FitIsWritable(b, cap); NoRows(b); }
    hide RowsFit;
    var keys := GoneOrder(b);
    for i := 0 to |keys|
      invariant w.Valid()
      invariant forall k :: k in keys[..i] ==> k in b.gone.rows && GoneFits(b, k, cap)
      invariant fits ==> w.bytes == old(w.bytes) + GonesLayout(b, keys[..i])
    {
      assert keys[..i + 1] == keys[..i] + [keys[i]] && keys[i] in keys;
      var (k, at) := (keys[i], b.gone.rows[keys[i]]);
      if k in b.keys.rows && at >= b.keys.rows[k].lastModified {
        assert !GoneFits(b, k, cap);
        return Err(Corrupt);
      }
      if fits { GonesStep(b, keys, i); }
      var _ :- w.Gone(k, at, cap);
      if fits { Appended(old(w.bytes), GonesLayout(b, keys[..i]), GoneLayout(k, at)); }
    }
    assert keys[..|keys|] == keys;
    return Ok(());
  }

  /** One bucket, with room left for `room` rows. */
  method WriteBucket(w: Writer, name: Text, b: Bucket, cap: nat, room: nat) returns (r: Written)
    requires w.Valid() && room <= 2_000_000
    modifies w
    ensures w.Valid() && (!NameFits(name, cap) || !RowsFit(b, cap) || BucketRows(b) > room ==> r.Err?)
    ensures NameFits(name, cap) && RowsFit(b, cap) && BucketRows(b) <= room ==>
        RowsWritable(b) && Writes(r, old(w.bytes), w.bytes, w.limit, BucketLayout(name, b))
  {
    hide NameFits, Sorted, RowsWritable, KeysLayout, GonesLayout, TextLayout, Le, KeysFit, GonesFit, RowsFit, Utf8;
    FitParts(b, cap);
    if RowsFit(b, cap) { FitIsWritable(b, cap); }
    var _ :- w.Text(name, cap);
    if BucketRows(b) > room {
      return Err(Capacity);
    }
    var _ :- w.U32(|b.keys.rows|);
    var _ :- WriteKeys(w, b, cap);
    var _ :- w.U32(|b.gone.rows|);
    var _ :- WriteGones(w, b, cap);
    if NameFits(name, cap) && RowsFit(b, cap) {
      Joined(old(w.bytes), TextLayout(name), Le(|b.keys.rows|, 4), KeysLayout(b, KeyOrder(b)),
             Le(|b.gone.rows|, 4), GonesLayout(b, GoneOrder(b)));
    }
    return Ok(());
  }

  // ----- the whole image -----

  /** Everything the encoder checks, against a promised size of `n` bytes. */
  ghost predicate Encodable(buckets: map<Text, Bucket>, universe: seq<Text>, c: Caps, n: nat) {
    && ValidCaps(c) && Covers(buckets, universe, c)
    && AllFit(buckets, universe, c.names) && AllWritable(buckets, universe)
    && RowTotal(buckets, universe) <= c.rows
    && n <= c.bytes && |ImageLayout(buckets, universe)| == n
  }

  function Header(count: nat): seq<byte> { [IMAGE_VERSION] + Le(count, 4) }

  ghost predicate WrittenUpTo(buckets: map<Text, Bucket>, universe: seq<Text>, c: Caps, i: nat, bytes: seq<byte>)
    requires i <= |universe|
  {
    && Ascending(universe[..i]) && AllFit(buckets, universe[..i], c.names) && AllWritable(buckets, universe[..i])
    && (forall name :: name in universe[..i] ==> Ready(buckets[name]) && NameAllowed(name, c))
    && bytes == Header(|universe|) + BucketsLayout(buckets, universe[..i])
  }

  lemma WrittenNothing(buckets: map<Text, Bucket>, universe: seq<Text>, c: Caps)
    ensures WrittenUpTo(buckets, universe, c, 0, Header(|universe|))
  {}

  lemma WrittenNext(buckets: map<Text, Bucket>, universe: seq<Text>, c: Caps, i: nat, bytes: seq<byte>)
    requires i < |universe| && WrittenUpTo(buckets, universe, c, i, bytes)
    requires i > 0 ==> Less(universe[i - 1], universe[i])
    requires var name := universe[i];
      name in buckets && Ready(buckets[name]) && NameFits(name, c.names) && RowsFit(buckets[name], c.names)
        && RowsWritable(buckets[name])
    ensures WrittenUpTo(buckets, universe, c, i + 1, bytes + BucketLayout(universe[i], buckets[universe[i]]))
  {
    hide BucketLayout, RowsFit, RowsWritable, Ready, Less, Utf8;
    assert universe[..i + 1] == universe[..i] + [universe[i]];
    AscendingExtend(universe[..i], universe[i]);
    BucketsStep(buckets, universe[..i + 1], i);
    assert universe[..i + 1][..i] == universe[..i] && universe[..i + 1][..i + 1] == universe[..i + 1];
    Appended(Header(|universe|), BucketsLayout(buckets, universe[..i]),
             BucketLayout(universe[i], buckets[universe[i]]));
  }

  lemma WrittenAll(buckets: map<Text, Bucket>, universe: seq<Text>, c: Caps, bytes: seq<byte>)
    requires WrittenUpTo(buckets, universe, c, |universe|, bytes)
    ensures AllWritable(buckets, universe) && bytes == ImageLayout(buckets, universe)
    ensures AllFit(buckets, universe, c.names) && Ascending(universe) && forall name :: name in universe ==>
        Ready(buckets[name]) && NameAllowed(name, c)
  {
    hide BucketsLayout, AllFit, Ready, Ascending, RowsWritable, Utf8;
    assert universe[..|universe|] == universe;
  }

  /** An encodable image has room for each bucket in turn, and each passes every check. */
  lemma RoomFor(buckets: map<Text, Bucket>, universe: seq<Text>, c: Caps, n: nat, i: nat)
    requires i < |universe| && Encodable(buckets, universe, c, n)
    ensures var name := universe[i];
      && name in buckets && Ready(buckets[name]) && NameFits(name, c.names)
      && RowsFit(buckets[name], c.names) && RowsWritable(buckets[name])
      && (i > 0 ==> Less(universe[i - 1], name))
      && (forall k :: k in universe[..i + 1] ==> k in buckets) && RowTotal(buckets, universe[..i + 1]) <= c.rows
      && AllWritable(buckets, universe[..i])
      && |Header(|universe|)| + |BucketsLayout(buckets, universe[..i])| + |BucketLayout(name, buckets[name])| <= n
  {
    hide BucketLayout, RowsFit, RowsWritable, Ready, Less, Utf8, BucketRows, BucketsLayout;
    assert universe[i] in universe;
    BucketsStep(buckets, universe, i);
    RowTotalGrows(buckets, universe, i + 1);
  }

  /** Succeeds exactly where `Encodable` holds, with the layout and nothing else. Before a
      byte is written, caps and sizes out of bounds refuse by capacity, counts as incomplete. */
  method Encode(buckets: map<Text, Bucket>, universe: seq<Text>, c: Caps, size: Size)
    returns (r: Result<seq<byte>, ImageError>)
    ensures r.Ok? <==> Encodable(buckets, universe, c, size.bytes)
    ensures r.Ok? ==> r.value == ImageLayout(buckets, universe)
    ensures !ValidCaps(c) ==> r == Err(Capacity)
    ensures ValidCaps(c) && (|universe| > c.buckets || |buckets| != |universe|) ==> r == Err(Incomplete)
    ensures ValidCaps(c) && |universe| <= c.buckets && |buckets| == |universe| && size.bytes > c.bytes ==>
        r == Err(Capacity)
  {
    hide AllFit, AllWritable, Ready, Ascending, BucketLayout, RowsFit, RowsWritable, BucketRows, Less, Le, ImageLayout,
         WrittenUpTo, Utf8;
    if !ValidCaps(c) {
      return Err(Capacity);
    }
    if |universe| > c.buckets || |buckets| != |universe| {
      return Err(Incomplete);
    }
    if size.bytes > c.bytes {
      return Err(Capacity);
    }
    if size.bytes < 5 {
      TooShort(buckets, universe, c, size.bytes);
      return Err(Capacity);
    }
    var w := new Writer(size.bytes);
    var head := w.Put(Header(|universe|));
    WrittenNothing(buckets, universe, c);
    assert [] + Header(|universe|) == Header(|universe|);
    var rows := 0;
    for i := 0 to |universe|
      invariant w.Valid() && w.limit == size.bytes
      invariant WrittenUpTo(buckets, universe, c, i, w.bytes)
      invariant forall name :: name in universe[..i] ==> name in buckets
      invariant rows == RowTotal(buckets, universe[..i]) <= c.rows
    {
      var name := universe[i];
      if Encodable(buckets, universe, c, size.bytes) {
        RoomFor(buckets, universe, c, size.bytes, i);
        WrittenLength(buckets, universe, c, i, w.bytes);
      }
      hide Encodable;
      if i > 0 && !Less(universe[i - 1], name) {
        return Err(Corrupt);
      }
      if name !in buckets || !Ready(buckets[name]) {
        return Err(Incomplete);
      }
      assert universe[..i + 1] == universe[..i] + [name] && universe[..i + 1][..i] == universe[..i];
      var b := buckets[name];
      ghost var before := w.bytes;
      var _ :- WriteBucket(w, name, b, c.names, c.rows - rows);
      rows := rows + BucketRows(b);
      assert RowsWritable(b) by { if RowsFit(b, c.names) { FitIsWritable(b, c.names); } }
      WrittenNext(buckets, universe, c, i, before);
    }
    WrittenAll(buckets, universe, c, w.bytes);
    if |w.bytes| != size.bytes {
      return Err(Corrupt);
    }
    assert universe[..|universe|] == universe;
    return Ok(w.bytes);
  }

  lemma WrittenLength(buckets: map<Text, Bucket>, universe: seq<Text>, c: Caps, i: nat, bytes: seq<byte>)
    requires i <= |universe| && WrittenUpTo(buckets, universe, c, i, bytes)
    ensures AllWritable(buckets, universe[..i])
    ensures |bytes| == |Header(|universe|)| + |BucketsLayout(buckets, universe[..i])|
  {
    hide BucketsLayout, AllFit, Ready, Ascending, RowsWritable, Utf8;
  }

  lemma TooShort(buckets: map<Text, Bucket>, universe: seq<Text>, c: Caps, n: nat)
    requires n < 5
    ensures !Encodable(buckets, universe, c, n)
  {
    hide BucketsLayout, AllFit, Covers, RowsWritable;
  }

  lemma {:induction false} RowsAgree(buckets: map<Text, Bucket>, names: seq<Text>)
    requires forall name :: name in names ==> name in buckets
    ensures RowTotal(buckets, names) == MeasuredUpTo(buckets, names).rows
  {
    if names != [] {
      RowsAgree(buckets, names[..|names| - 1]);
      hide MeasuredUpTo, RowTotal;
    }
  }

  /** Whatever the measurement accepts with times the layout can express, the encoder
      accepts at exactly the measured size. */
  lemma MeasuredEncodes(buckets: map<Text, Bucket>, universe: seq<Text>, c: Caps)
    requires Measurable(buckets, universe, c) && AllWritable(buckets, universe)
    ensures Encodable(buckets, universe, c, Measured(buckets, universe).bytes)
  {
    hide AllFit, AllWritable, MeasuredUpTo, RowTotal, ImageLayout, RowsMeasurable, Ascending, Ready, Restores,
         HeaderSize, DecodeImage, Utf8;
    ImageRoundTrips(buckets, universe, c, 0);
    MeasurableFits(buckets, universe, c);
    RowsAgree(buckets, universe);
    assert HeaderSize(|universe|).rows == 0 by { HeaderRows(|universe|); }
  }

  // ----- times before the epoch -----

  ghost predicate SinceEpoch(b: Bucket) {
    && (forall k :: k in b.keys.rows ==> b.keys.rows[k].lastModified >= 0)
    && (forall k :: k in b.gone.rows ==> b.gone.rows[k] >= 0)
  }

  /** A measured index encodes exactly when none of its times lies before the epoch: the
      measurement does not look at times, and nothing else refuses what it accepts. */
  lemma MeasuredEncodesSinceEpoch(buckets: map<Text, Bucket>, universe: seq<Text>, c: Caps)
    requires Measurable(buckets, universe, c)
    ensures Encodable(buckets, universe, c, Measured(buckets, universe).bytes) <==> forall name :: name in universe ==>
        SinceEpoch(buckets[name])
  {
    hide Measured, Ascending, AllFit, ImageLayout, RowTotal, Utf8;
    forall name | name in universe ensures RowsWritable(buckets[name]) <==> SinceEpoch(buckets[name]) {
      WritableSinceEpoch(buckets[name], c);
    }
    hide RowsWritable, SinceEpoch, RowsMeasurable;
    if AllWritable(buckets, universe) { MeasuredEncodes(buckets, universe, c); }
  }

  lemma WritableSinceEpoch(b: Bucket, c: Caps)
    requires RowsMeasurable(b, c)
    ensures RowsWritable(b) <==> SinceEpoch(b)
  {
    hide Utf8;
    forall k | k in b.keys.rows ensures b.keys.rows[k].size.Some? ==> b.keys.rows[k].size.value >= 0 {
      assert RowMeasurable(k, b.keys.rows[k], c);
    }
  }

  /** The bucket with one row moved before the epoch. */
  function Antedated(b: Bucket, k: Text): Bucket
    requires k in b.keys.rows
  {
    b.(keys := b.keys.(rows := b.keys.rows[k := b.keys.rows[k].(lastModified := -1)]))
  }

  lemma AntedatedSize(b: Bucket, k: Text)
    requires k in b.keys.rows
    ensures RowsSize(Antedated(b, k)) == RowsSize(b)
  {
    hide Sum, Utf8;
    var e := b.keys.rows[k].(lastModified := -1);
    SumInsert(b.keys.rows, KeyBytes, k, e);
    SumInsert(b.keys.rows, KeyCharge, k, e);
    assert b.keys.rows[k := e].Keys == b.keys.rows.Keys;
    assert |b.keys.rows[k := e]| == |b.keys.rows[k := e].Keys|;
  }

  lemma {:induction false} SameMeasure(buckets: map<Text, Bucket>, other: map<Text, Bucket>, names: seq<Text>)
    requires forall name :: name in names ==>
        name in buckets && name in other && RowsSize(other[name]) == RowsSize(buckets[name])
    ensures MeasuredUpTo(other, names) == MeasuredUpTo(buckets, names)
  {
    hide RowsSize, NameSize, Utf8;
    if names != [] { SameMeasure(buckets, other, names[..|names| - 1]); }
  }

  /** Moving any row without a tombstone before the epoch leaves every measurement as it was
      and no size at which the image can be written. */
  lemma AntedatedRefused(buckets: map<Text, Bucket>, universe: seq<Text>, c: Caps, name: Text, k: Text, n: nat)
    requires Measurable(buckets, universe, c) && name in universe
    requires k in buckets[name].keys.rows && k !in buckets[name].gone.rows
    ensures var early := buckets[name := Antedated(buckets[name], k)];
      && Measurable(early, universe, c) && Measured(early, universe) == Measured(buckets, universe)
      && !Encodable(early, universe, c, n)
  {
    hide Ascending, AllFit, ImageLayout, RowTotal, RowsSize, MeasuredUpTo, HeaderSize, NameAllowed, Utf8;
    var early := buckets[name := Antedated(buckets[name], k)];
    AntedatedSize(buckets[name], k);
    SameMeasure(buckets, early, universe);
    assert early.Keys == buckets.Keys;
    assert |early| == |early.Keys| == |buckets|;
    AntedatedMeasurable(buckets[name], k, c);
    hide RowsMeasurable, RowMeasurable;
    assert early[name].keys.rows[k].lastModified == -1;
  }

  lemma AntedatedMeasurable(b: Bucket, k: Text, c: Caps)
    requires k in b.keys.rows && k !in b.gone.rows && RowsMeasurable(b, c)
    ensures RowsMeasurable(Antedated(b, k), c)
  {
    hide NameAllowed, Utf8;
    assert RowMeasurable(k, b.keys.rows[k], c);
  }
}
