/** The image decoder as the program runs it: loops over a reader and a budget, proved to
    return exactly what the parse functions do, error for error. */
module ImageReader {
  import opened Base
  import opened Ordered
  import opened Entries
  import opened Rows
  import opened Wire
  import opened Buckets
  import opened Image
  import opened ImageCodec
  import opened Streams

  // ----- live rows -----

  function WithKeys(rows: seq<Listed>, p: Parse<KeyList>): Parse<KeyList> {
    match p
    case Ok(q) => Ok(Parsed(KeyList(rows + q.value.rows, q.value.left), q.rest))
    case Err(e) => Err(e)
  }

  lemma KeysNext(rows: seq<Listed>, s: seq<byte>, n: nat, left: nat, cap: nat, previous: Option<Text>)
    requires n > 0
    ensures WithKeys(rows, ReadKeys(s, n, left, cap, previous)) ==
      match ReadEntry(s, left, cap)
      case Err(e) => Err(e)
      case Ok(row) =>
        if !Follows(previous, row.value.key) then Err(Corrupt)
        else WithKeys(rows + [Listed(row.value.key, row.value.entry)],
                      ReadKeys(row.rest, n - 1, row.value.left, cap, Some(row.value.key)))
  {
    hide ReadEntry, Less, Utf8;
    var r := ReadEntry(s, left, cap);
    if r.Ok? && Follows(previous, r.value.value.key) {
      var row := r.value;
      var more := ReadKeys(row.rest, n - 1, row.value.left, cap, Some(row.value.key));
      if more.Ok? {
        assert rows + ([Listed(row.value.key, row.value.entry)] + more.value.value.rows)
            == rows + [Listed(row.value.key, row.value.entry)] + more.value.value.rows;
      }
    }
  }

  lemma KeysEnd(rows: seq<Listed>, s: seq<byte>, left: nat, cap: nat, previous: Option<Text>)
    ensures WithKeys(rows, ReadKeys(s, 0, left, cap, previous)) == Ok(Parsed(KeyList(rows, left), s))
  {
    assert rows + [] == rows;
  }

  lemma KeysStart(p: Parse<KeyList>)
    ensures WithKeys([], p) == p
  {
    if p.Ok? { assert [] + p.value.value.rows == p.value.value.rows; }
  }

  ghost predicate KeysFilled(p: Parse<KeyList>, r: Result<(KeyRows, Stats), ImageError>, rest: seq<byte>, left: nat) {
    match p
    case Ok(q) =>
      r == Ok((KeyTableOf(q.value.rows), StatsOfRows(q.value.rows))) && rest == q.rest && left == q.value.left
    case Err(e) => r == Err(e)
  }

  method FillKeys(reader: Reader, budget: DecodeBudget, n: nat, cap: nat)
    returns (r: Result<(KeyRows, Stats), ImageError>)
    requires reader.Valid() && budget.Valid()
    modifies reader, budget
    ensures reader.Valid() && (r.Ok? ==> budget.Valid())
    ensures KeysFilled(ReadKeys(old(reader.Rest()), n, old(budget.Left()), cap, None),
                       r, reader.Rest(), if r.Ok? then budget.Left() else 0)
  {
    hide ReadKeys, ReadEntry, WithKeys, KeyInsert, Replace, Less, Utf8;
    ghost var whole := ReadKeys(reader.Rest(), n, budget.Left(), cap, None);
    KeysStart(whole);
    var keys, stats := NO_KEYS, NO_STATS;
    var previous: Option<Text> := None;
    ghost var rows: seq<Listed> := [];
    for i := 0 to n
      invariant reader.Valid() && budget.Valid()
      invariant whole == WithKeys(rows, ReadKeys(reader.Rest(), n - i, budget.Left(), cap, previous))
      invariant keys == KeyTableOf(rows) && stats == StatsOfRows(rows)
    {
      KeysNext(rows, reader.Rest(), n - i, budget.Left(), cap, previous);
      var row :- reader.Entry(budget, cap);
      if previous.Some? && !Less(previous.value, row.0) {
        return Err(Corrupt);
      }
      previous := Some(row.0);
      assert (rows + [Listed(row.0, row.1)])[..|rows|] == rows;
      rows := rows + [Listed(row.0, row.1)];
      stats := Replace(stats, NO_STATS, StatsOf(row.1));
      keys := KeyInsert(keys, row.0, row.1);
    }
    KeysEnd(rows, reader.Rest(), budget.Left(), cap, previous);
    return Ok((keys, stats));
  }

  // ----- tombstones -----

  function WithGones(rows: seq<Tombstone>, p: Parse<GoneList>): Parse<GoneList> {
    match p
    case Ok(q) => Ok(Parsed(GoneList(rows + q.value.rows, q.value.left), q.rest))
    case Err(e) => Err(e)
  }

  lemma GonesNext(rows: seq<Tombstone>, s: seq<byte>, n: nat, left: nat, cap: nat, previous: Option<Text>,
                  live: map<Text, Entry>)
    requires n > 0
    ensures WithGones(rows, ReadGones(s, n, left, cap, previous, live)) ==
      match ReadText(s, cap)
      case Err(e) => Err(e)
      case Ok(key) =>
        if !Follows(previous, key.value) then Err(Corrupt) else
        match Charge(left, GoneCharge(|key.value|))
        case Err(e) => Err(e)
        case Ok(left') =>
          match ReadTime(key.rest)
          case Err(e) => Err(e)
          case Ok(at) =>
            if key.value in live && at.value >= live[key.value].lastModified then Err(Corrupt)
            else WithGones(rows + [Tombstone(key.value, at.value)],
                           ReadGones(at.rest, n - 1, left', cap, Some(key.value), live))
  {
    hide ReadText, ReadTime, Less, Utf8, GoneCharge;
    var k := ReadText(s, cap);
    if k.Ok? && Follows(previous, k.value.value) && GoneCharge(|k.value.value|) <= left && ReadTime(k.value.rest).Ok? {
      var (key, at) := (k.value, ReadTime(k.value.rest).value);
      if !(key.value in live && at.value >= live[key.value].lastModified) {
        var more := ReadGones(at.rest, n - 1, left - GoneCharge(|key.value|), cap, Some(key.value), live);
        if more.Ok? {
          assert rows + ([Tombstone(key.value, at.value)] + more.value.value.rows) ==
            rows + [Tombstone(key.value, at.value)] + more.value.value.rows;
        }
      }
    }
  }

  lemma GonesEnd(rows: seq<Tombstone>, s: seq<byte>, left: nat, cap: nat, previous: Option<Text>,
                 live: map<Text, Entry>)
    ensures WithGones(rows, ReadGones(s, 0, left, cap, previous, live)) == Ok(Parsed(GoneList(rows, left), s))
  {
    assert rows + [] == rows;
  }

  lemma GonesStart(p: Parse<GoneList>)
    ensures WithGones([], p) == p
  {
    if p.Ok? { assert [] + p.value.value.rows == p.value.value.rows; }
  }

  ghost predicate GonesFilled(p: Parse<GoneList>, r: Result<GoneRows, ImageError>, rest: seq<byte>, left: nat) {
    match p
    case Ok(q) => r == Ok(GoneTableOf(q.value.rows)) && rest == q.rest && left == q.value.left
    case Err(e) => r == Err(e)
  }

  method FillGones(reader: Reader, budget: DecodeBudget, n: nat, cap: nat, live: map<Text, Entry>)
    returns (r: Result<GoneRows, ImageError>)
    requires reader.Valid() && budget.Valid()
    modifies reader, budget
    ensures reader.Valid() && (r.Ok? ==> budget.Valid())
    ensures GonesFilled(ReadGones(old(reader.Rest()), n, old(budget.Left()), cap, None, live),
                        r, reader.Rest(), if r.Ok? then budget.Left() else 0)
  {
    hide ReadGones, ReadText, ReadTime, WithGones, GoneInsert, GoneCharge, Less, Utf8;
    ghost var whole := ReadGones(reader.Rest(), n, budget.Left(), cap, None, live);
    GonesStart(whole);
    var gone := NO_GONE;
    var previous: Option<Text> := None;
    ghost var rows: seq<Tombstone> := [];
    for i := 0 to n
      invariant reader.Valid() && budget.Valid()
      invariant whole == WithGones(rows, ReadGones(reader.Rest(), n - i, budget.Left(), cap, previous, live))
      invariant gone == GoneTableOf(rows)
    {
      GonesNext(rows, reader.Rest(), n - i, budget.Left(), cap, previous, live);
      var key :- reader.Text(cap);
      if previous.Some? && !Less(previous.value, key) {
        return Err(Corrupt);
      }
      previous := Some(key);
      var _ :- budget.Take(GoneCharge(|key|));
      var at :- reader.Timestamp();
      if key in live && at >= live[key].lastModified {
        return Err(Corrupt);
      }
      assert (rows + [Tombstone(key, at)])[..|rows|] == rows;
      rows := rows + [Tombstone(key, at)];
      gone := GoneInsert(gone, key, at);
    }
    GonesEnd(rows, reader.Rest(), budget.Left(), cap, previous, live);
    return Ok(gone);
  }

  // ----- buckets -----

  ghost predicate BucketFilled(p: Parse<BucketRead>, r: Result<(Text, Bucket, nat), ImageError>, rest: seq<byte>,
                               left: nat) {
    match p
    case Ok(q) => r == Ok((q.value.name, q.value.bucket, q.value.rows)) && rest == q.rest && left == q.value.left
    case Err(e) => r == Err(e)
  }

  method FillBucket(reader: Reader, budget: DecodeBudget, rows: nat, caps: Caps, previous: Option<Text>)
    returns (r: Result<(Text, Bucket, nat), ImageError>)
    requires reader.Valid() && budget.Valid()
    modifies reader, budget
    ensures reader.Valid() && (r.Ok? ==> budget.Valid())
    ensures BucketFilled(ReadBucket(old(reader.Rest()), old(budget.Left()), rows, caps, previous),
                         r, reader.Rest(), if r.Ok? then budget.Left() else 0)
  {
    hide ReadText, ReadLe, ReadKeys, ReadGones, KeyTableOf, GoneTableOf, StatsOfRows, NameSize, Less, Utf8;
    var name :- reader.Text(caps.names);
    if previous.Some? && !Less(previous.value, name) {
      return Err(Corrupt);
    }
    var _ :- budget.Take(NameSize(name).charge);
    var keyCount :- reader.Le(4);
    if rows + keyCount > caps.rows {
      return Err(Capacity);
    }
    var keys :- FillKeys(reader, budget, keyCount, caps.names);
    var goneCount :- reader.Le(4);
    if rows + keyCount + goneCount > caps.rows {
      return Err(Capacity);
    }
    var gone :- FillGones(reader, budget, goneCount, caps.names, keys.0.rows);
    var b := EMPTY_BUCKET.(synced := true, keys := keys.0, gone := gone, stats := keys.1);
    return Ok((name, b, rows + keyCount + goneCount));
  }

  ghost predicate BucketsFilled(p: Parse<Decoded>, r: Result<Decoded, ImageError>, rest: seq<byte>) {
    match p
    case Ok(q) => r == Ok(q.value) && rest == q.rest
    case Err(e) => r == Err(e)
  }

  lemma BucketsNext(s: seq<byte>, n: nat, left: nat, rows: nat, caps: Caps, previous: Option<Text>, done: Decoded)
    requires n > 0
    ensures ReadBuckets(s, n, left, rows, caps, previous, done) ==
      match ReadBucket(s, left, rows, caps, previous)
      case Err(e) => Err(e)
      case Ok(b) => ReadBuckets(b.rest, n - 1, b.value.left, b.value.rows, caps, Some(b.value.name),
                      Decoded(done.buckets[b.value.name := b.value.bucket],
                              Replace(done.stats, NO_STATS, b.value.bucket.stats)))
  {
    hide ReadBucket, Replace;
  }

  lemma BucketsEnd(s: seq<byte>, left: nat, rows: nat, caps: Caps, previous: Option<Text>, done: Decoded)
    ensures ReadBuckets(s, 0, left, rows, caps, previous, done) == Ok(Parsed(done, s))
  {}

  method FillBuckets(reader: Reader, budget: DecodeBudget, count: nat, caps: Caps)
    returns (r: Result<Decoded, ImageError>)
    requires reader.Valid() && budget.Valid()
    modifies reader, budget
    ensures reader.Valid()
    ensures BucketsFilled(ReadBuckets(old(reader.Rest()), count, old(budget.Left()), 0, caps, None, NOTHING),
                          r, reader.Rest())
  {
    hide ReadBuckets, ReadBucket, Replace, Utf8;
    ghost var whole := ReadBuckets(reader.Rest(), count, budget.Left(), 0, caps, None, NOTHING);
    var buckets: map<Text, Bucket>, total := map[], NO_STATS;
    var rows := 0;
    var previous: Option<Text> := None;
    for i := 0 to count
      invariant reader.Valid() && budget.Valid()
      invariant whole == ReadBuckets(reader.Rest(), count - i, budget.Left(), rows, caps,
                                     previous, Decoded(buckets, total))
    {
      BucketsNext(reader.Rest(), count - i, budget.Left(), rows, caps, previous, Decoded(buckets, total));
      var b :- FillBucket(reader, budget, rows, caps, previous);
      previous := Some(b.0);
      total := Replace(total, NO_STATS, b.1.stats);
      buckets := buckets[b.0 := b.1];
      rows := b.2;
    }
    BucketsEnd(reader.Rest(), budget.Left(), rows, caps, previous, Decoded(buckets, total));
    return Ok(Decoded(buckets, total));
  }

  /** Equal to the decoding function on every input. */
  method Decode(bytes: seq<byte>, caps: Caps) returns (r: Result<Decoded, ImageError>)
    ensures r == DecodeImage(bytes, caps)
  {
    hide DecodeImage, BodyDecoded, ValidCaps, Utf8;
    DecodeHead(bytes, caps);
    if !ValidCaps(caps) || bytes == [] || |bytes| > caps.bytes {
      return Err(Capacity);
    }
    var reader := new Reader(bytes);
    var version := reader.U8();
    if version.value != IMAGE_VERSION {
      return Err(Schema);
    }
    assert reader.Rest() == bytes[1..];
    r := DecodeBody(reader, caps);
    DecodeRest(bytes, caps, r);
  }

  lemma DecodeHead(bytes: seq<byte>, caps: Caps)
    ensures !ValidCaps(caps) || bytes == [] || |bytes| > caps.bytes ==> DecodeImage(bytes, caps) == Err(Capacity)
    ensures ValidCaps(caps) && bytes != [] && |bytes| <= caps.bytes && bytes[0] != IMAGE_VERSION ==>
        DecodeImage(bytes, caps) == Err(Schema)
  {
    hide ReadLe, ReadBuckets, HeaderSize;
  }

  lemma DecodeRest(bytes: seq<byte>, caps: Caps, r: Result<Decoded, ImageError>)
    requires ValidCaps(caps) && bytes != [] && |bytes| <= caps.bytes
    requires bytes[0] == IMAGE_VERSION && BodyDecoded(bytes[1..], caps, r)
    ensures r == DecodeImage(bytes, caps)
  {
    hide ReadLe, ReadBuckets, HeaderSize;
  }

  ghost predicate BodyDecoded(rest: seq<byte>, caps: Caps, r: Result<Decoded, ImageError>) {
    match ReadLe(rest, 4)
    case Err(e) => r == Err(e)
    case Ok(count) =>
      if count.value > caps.buckets then r == Err(Capacity) else
      match Charge(caps.decoded, HeaderSize(count.value).charge)
      case Err(e) => r == Err(e)
      case Ok(left) =>
        match ReadBuckets(count.rest, count.value, left, 0, caps, None, NOTHING)
        case Err(e) => r == Err(e)
        case Ok(done) => r == if done.rest == [] then Ok(done.value) else Err(Corrupt)
  }

  method DecodeBody(reader: Reader, caps: Caps) returns (r: Result<Decoded, ImageError>)
    requires reader.Valid()
    modifies reader
    ensures BodyDecoded(old(reader.Rest()), caps, r)
  {
    hide ReadBuckets, ReadLe, HeaderSize, Utf8;
    var count :- reader.Le(4);
    if count > caps.buckets {
      return Err(Capacity);
    }
    var budget := new DecodeBudget(caps.decoded);
    var _ :- budget.Take(HeaderSize(count).charge);
    r := FillBuckets(reader, budget, count, caps);
    if r.Ok? && reader.offset != |reader.bytes| {
      r := Err(Corrupt);
    }
  }
}
