/** The bytes of a peer image and the private index they decode to. */
module ImageCodec {
  import opened Base
  import opened Ordered
  import opened Entries
  import opened Rows
  import opened Wire
  import opened Buckets
  import opened Image

  const IMAGE_VERSION: byte := 1

  // ----- layout -----

  /** Times at or after the epoch and sizes the layout can express. */
  predicate RowsWritable(b: Bucket) {
    && (forall k :: k in b.keys.rows ==>
        b.keys.rows[k].lastModified >= 0 && (b.keys.rows[k].size.Some? ==> b.keys.rows[k].size.value >= 0))
    && (forall k :: k in b.gone.rows ==> b.gone.rows[k] >= 0)
  }

  function KeysLayout(b: Bucket, keys: seq<Text>): seq<byte>
    requires RowsWritable(b) && forall k :: k in keys ==> k in b.keys.rows
  {
    if keys == [] then [] else EntryLayout(keys[0], b.keys.rows[keys[0]]) + KeysLayout(b, keys[1..])
  }

  function GonesLayout(b: Bucket, keys: seq<Text>): seq<byte>
    requires RowsWritable(b) && forall k :: k in keys ==> k in b.gone.rows
  {
    if keys == [] then [] else GoneLayout(keys[0], b.gone.rows[keys[0]]) + GonesLayout(b, keys[1..])
  }

  function KeyOrder(b: Bucket): seq<Text> { Sorted(b.keys.rows.Keys) }

  function GoneOrder(b: Bucket): seq<Text> { Sorted(b.gone.rows.Keys) }

  function TombstonesLayout(b: Bucket): seq<byte>
    requires RowsWritable(b)
  {
    Le(|b.gone.rows|, 4) + GonesLayout(b, GoneOrder(b))
  }

  function RowsLayout(b: Bucket): seq<byte>
    requires RowsWritable(b)
  {
    Le(|b.keys.rows|, 4) + (KeysLayout(b, KeyOrder(b)) + TombstonesLayout(b))
  }

  function BucketLayout(name: Text, b: Bucket): seq<byte>
    requires RowsWritable(b)
  {
    TextLayout(name) + RowsLayout(b)
  }

  predicate AllWritable(buckets: map<Text, Bucket>, names: seq<Text>) {
    forall name :: name in names ==> name in buckets && RowsWritable(buckets[name])
  }

  function BucketsLayout(buckets: map<Text, Bucket>, names: seq<Text>): seq<byte>
    requires AllWritable(buckets, names)
  {
    if names == [] then [] else BucketLayout(names[0], buckets[names[0]]) + BucketsLayout(buckets, names[1..])
  }

  function ImageLayout(buckets: map<Text, Bucket>, universe: seq<Text>): seq<byte>
    requires AllWritable(buckets, universe)
  {
    [IMAGE_VERSION] + (Le(|universe|, 4) + BucketsLayout(buckets, universe))
  }

  // ----- decoding -----

  predicate Follows(previous: Option<Text>, k: Text) { previous.None? || Less(previous.value, k) }

  datatype KeyList = KeyList(rows: seq<Listed>, left: nat)

  function ReadKeys(s: seq<byte>, n: nat, left: nat, cap: nat, previous: Option<Text>): Parse<KeyList>
    decreases n
  {
    if n == 0 then Ok(Parsed(KeyList([], left), s)) else
    var row :- ReadEntry(s, left, cap);
    if !Follows(previous, row.value.key) then Err(Corrupt) else
    var more :- ReadKeys(row.rest, n - 1, row.value.left, cap, Some(row.value.key));
    Ok(Parsed(KeyList([Listed(row.value.key, row.value.entry)] + more.value.rows, more.value.left), more.rest))
  }

  datatype Tombstone = Tombstone(key: Text, at: Time)

  datatype GoneList = GoneList(rows: seq<Tombstone>, left: nat)

  function ReadGones(s: seq<byte>, n: nat, left: nat, cap: nat, previous: Option<Text>,
                     live: map<Text, Entry>): Parse<GoneList>
    decreases n
  {
    if n == 0 then Ok(Parsed(GoneList([], left), s)) else
    var key :- ReadText(s, cap);
    if !Follows(previous, key.value) then Err(Corrupt) else
    var left' :- Charge(left, GoneCharge(|key.value|));
    var at :- ReadTime(key.rest);
    if key.value in live && at.value >= live[key.value].lastModified then Err(Corrupt) else
    var more :- ReadGones(at.rest, n - 1, left', cap, Some(key.value), live);
    Ok(Parsed(GoneList([Tombstone(key.value, at.value)] + more.value.rows, more.value.left), more.rest))
  }

  /** The tables a decoder fills, row after row. */
  function KeyTableOf(rows: seq<Listed>): KeyRows {
    if rows == [] then NO_KEYS else
      KeyInsert(KeyTableOf(rows[..|rows| - 1]), rows[|rows| - 1].key, rows[|rows| - 1].entry)
  }

  function GoneTableOf(rows: seq<Tombstone>): GoneRows {
    if rows == [] then NO_GONE else
      GoneInsert(GoneTableOf(rows[..|rows| - 1]), rows[|rows| - 1].key, rows[|rows| - 1].at)
  }

  function StatsOfRows(rows: seq<Listed>): Stats {
    if rows == [] then NO_STATS else
      Replace(StatsOfRows(rows[..|rows| - 1]), NO_STATS, StatsOf(rows[|rows| - 1].entry))
  }

  function DecodedBucket(keys: seq<Listed>, gone: seq<Tombstone>): Bucket {
    EMPTY_BUCKET.(synced := true, keys := KeyTableOf(keys), gone := GoneTableOf(gone), stats := StatsOfRows(keys))
  }

  datatype BucketRead = BucketRead(name: Text, bucket: Bucket, left: nat, rows: nat)

  function ReadBucket(s: seq<byte>, left: nat, rows: nat, caps: Caps, previous: Option<Text>): Parse<BucketRead> {
    var name :- ReadText(s, caps.names);
    if !Follows(previous, name.value) then Err(Corrupt) else
    var left1 :- Charge(left, NameSize(name.value).charge);
    var keyCount :- ReadLe(name.rest, 4);
    if rows + keyCount.value > caps.rows then Err(Capacity) else
    var keys :- ReadKeys(keyCount.rest, keyCount.value, left1, caps.names, None);
    var goneCount :- ReadLe(keys.rest, 4);
    if rows + keyCount.value + goneCount.value > caps.rows then Err(Capacity) else
    var live := KeyTableOf(keys.value.rows).rows;
    var gone :- ReadGones(goneCount.rest, goneCount.value, keys.value.left, caps.names, None, live);
    Ok(Parsed(BucketRead(name.value, DecodedBucket(keys.value.rows, gone.value.rows), gone.value.left,
                         rows + keyCount.value + goneCount.value), gone.rest))
  }

  datatype Decoded = Decoded(buckets: map<Text, Bucket>, stats: Stats)

  function ReadBuckets(s: seq<byte>, n: nat, left: nat, rows: nat, caps: Caps, previous: Option<Text>,
                       done: Decoded): Parse<Decoded>
    decreases n
  {
    if n == 0 then Ok(Parsed(done, s)) else
    var b :- ReadBucket(s, left, rows, caps, previous);
    ReadBuckets(b.rest, n - 1, b.value.left, b.value.rows, caps, Some(b.value.name),
                Decoded(done.buckets[b.value.name := b.value.bucket],
                        Replace(done.stats, NO_STATS, b.value.bucket.stats)))
  }

  const NOTHING := Decoded(map[], NO_STATS)

  function DecodeImage(bytes: seq<byte>, caps: Caps): Result<Decoded, ImageError> {
    if !ValidCaps(caps) then Err(Capacity) else
    if bytes == [] || |bytes| > caps.bytes then Err(Capacity) else
    if bytes[0] != IMAGE_VERSION then Err(Schema) else
    var count :- ReadLe(bytes[1..], 4);
    if count.value > caps.buckets then Err(Capacity) else
    var left :- Charge(caps.decoded, HeaderSize(count.value).charge);
    var done :- ReadBuckets(count.rest, count.value, left, 0, caps, None, NOTHING);
    if done.rest == [] then Ok(done.value) else Err(Corrupt)
  }

  // ----- a longer input reads the same index -----

  lemma {:induction false} KeysStable(s: seq<byte>, n: nat, left: nat, cap: nat, previous: Option<Text>, q: seq<byte>)
    requires ReadKeys(s, n, left, cap, previous).Ok?
    ensures ReadKeys(s + q, n, left, cap, previous) ==
            Ok(Parsed(ReadKeys(s, n, left, cap, previous).value.value,
                      ReadKeys(s, n, left, cap, previous).value.rest + q))
    decreases n
  {
    hide Utf8, ReadEntry, Less;
    if n > 0 {
      EntryStable(s, left, cap, q);
      var row := ReadEntry(s, left, cap).value;
      KeysStable(row.rest, n - 1, row.value.left, cap, Some(row.value.key), q);
    }
  }

  lemma {:induction false} GonesStable(s: seq<byte>, n: nat, left: nat, cap: nat, previous: Option<Text>,
                                       live: map<Text, Entry>, q: seq<byte>)
    requires ReadGones(s, n, left, cap, previous, live).Ok?
    ensures ReadGones(s + q, n, left, cap, previous, live) ==
            Ok(Parsed(ReadGones(s, n, left, cap, previous, live).value.value,
                      ReadGones(s, n, left, cap, previous, live).value.rest + q))
    decreases n
  {
    hide Utf8, ReadText, ReadTime, Less, GoneCharge;
    if n > 0 {
      TextStable(s, cap, q);
      var key := ReadText(s, cap).value;
      TimeStable(key.rest, q);
      var at := ReadTime(key.rest).value;
      GonesStable(at.rest, n - 1, left - GoneCharge(|key.value|), cap, Some(key.value), live, q);
    }
  }

  lemma LeStable(s: seq<byte>, width: nat, q: seq<byte>)
    requires ReadLe(s, width).Ok?
    ensures ReadLe(s + q, width) == Ok(Parsed(ReadLe(s, width).value.value, ReadLe(s, width).value.rest + q))
  {
    assert (s + q)[..width] == s[..width];
    assert (s + q)[width..] == s[width..] + q;
  }

  lemma BucketStable(s: seq<byte>, left: nat, rows: nat, caps: Caps, previous: Option<Text>, q: seq<byte>)
    requires ReadBucket(s, left, rows, caps, previous).Ok?
    ensures ReadBucket(s + q, left, rows, caps, previous) ==
            Ok(Parsed(ReadBucket(s, left, rows, caps, previous).value.value,
                      ReadBucket(s, left, rows, caps, previous).value.rest + q))
  {
    hide Utf8, ReadText, ReadLe, ReadKeys, ReadGones, Less, NameSize, KeyTableOf, DecodedBucket;
    TextStable(s, caps.names, q);
    var name := ReadText(s, caps.names).value;
    var left1 := left - NameSize(name.value).charge;
    LeStable(name.rest, 4, q);
    var keyCount := ReadLe(name.rest, 4).value;
    KeysStable(keyCount.rest, keyCount.value, left1, caps.names, None, q);
    var keys := ReadKeys(keyCount.rest, keyCount.value, left1, caps.names, None).value;
    LeStable(keys.rest, 4, q);
    var goneCount := ReadLe(keys.rest, 4).value;
    GonesStable(goneCount.rest, goneCount.value, keys.value.left, caps.names, None,
                KeyTableOf(keys.value.rows).rows, q);
  }

  lemma {:induction false} BucketsStable(s: seq<byte>, n: nat, left: nat, rows: nat, caps: Caps, previous: Option<Text>,
                                         done: Decoded, q: seq<byte>)
    requires ReadBuckets(s, n, left, rows, caps, previous, done).Ok?
    ensures ReadBuckets(s + q, n, left, rows, caps, previous, done) ==
            Ok(Parsed(ReadBuckets(s, n, left, rows, caps, previous, done).value.value,
                      ReadBuckets(s, n, left, rows, caps, previous, done).value.rest + q))
    decreases n
  {
    hide Utf8, ReadBucket, Replace;
    if n > 0 {
      BucketStable(s, left, rows, caps, previous, q);
      var b := ReadBucket(s, left, rows, caps, previous).value;
      BucketsStable(b.rest, n - 1, b.value.left, b.value.rows, caps, Some(b.value.name),
                    Decoded(done.buckets[b.value.name := b.value.bucket],
                            Replace(done.stats, NO_STATS, b.value.bucket.stats)), q);
    }
  }

  /** No image is a strict prefix of another: run on, its bytes are refused under any byte
      cap, so cut short they would have been refused too. */
  lemma ImagePrefixFree(bytes: seq<byte>, q: seq<byte>, caps: Caps, caps': Caps)
    requires DecodeImage(bytes, caps).Ok? && q != []
    requires caps' == caps.(bytes := caps'.bytes)
    ensures DecodeImage(bytes + q, caps').Err?
  {
    hide Utf8, ReadLe, ReadBuckets, HeaderSize;
    assert (bytes + q)[1..] == bytes[1..] + q;
    LeStable(bytes[1..], 4, q);
    var count := ReadLe(bytes[1..], 4).value;
    var left := caps.decoded - HeaderSize(count.value).charge;
    BucketsStable(count.rest, count.value, left, 0, caps, None, NOTHING, q);
    if ValidCaps(caps') {
      SameReads(count.rest + q, count.value, left, 0, caps, caps', None, NOTHING);
    }
  }

  lemma SameBucketRead(s: seq<byte>, left: nat, rows: nat, caps: Caps, caps': Caps, previous: Option<Text>)
    requires caps.names == caps'.names && caps.rows == caps'.rows
    ensures ReadBucket(s, left, rows, caps, previous) == ReadBucket(s, left, rows, caps', previous)
  {
    hide Utf8, ReadText, ReadLe, ReadKeys, ReadGones, Less, NameSize, KeyTableOf, DecodedBucket;
  }

  lemma {:induction false} SameReads(s: seq<byte>, n: nat, left: nat, rows: nat, caps: Caps, caps': Caps,
                                     previous: Option<Text>, done: Decoded)
    requires caps.names == caps'.names && caps.rows == caps'.rows
    ensures ReadBuckets(s, n, left, rows, caps, previous, done) == ReadBuckets(s, n, left, rows, caps', previous, done)
    decreases n
  {
    hide Utf8, ReadBucket, Replace;
    if n > 0 {
      SameBucketRead(s, left, rows, caps, caps', previous);
      var r := ReadBucket(s, left, rows, caps, previous);
      if r.Ok? {
        SameReads(r.value.rest, n - 1, r.value.value.left, r.value.value.rows, caps, caps', Some(r.value.value.name),
                  Decoded(done.buckets[r.value.value.name := r.value.value.bucket],
                          Replace(done.stats, NO_STATS, r.value.value.bucket.stats)));
      }
    }
  }
}
