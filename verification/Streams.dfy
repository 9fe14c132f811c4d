/** The byte streams of the image and effect codecs (src/index/fleet.rs): a bounded writer,
    a reader and a decode budget, each updated in place, and the codecs that drive them,
    proved against the layouts and parse functions. */
module Streams {
  import opened Base
  import opened Entries
  import opened Wire
  import Delta

  type Written = Result<(), ImageError>

  /** Writing `layout` after `before` within `limit`: exactly that, or a refusal. */
  ghost predicate Writes(r: Written, before: seq<byte>, after: seq<byte>, limit: nat, layout: seq<byte>) {
    && (r.Ok? <==> |before| + |layout| <= limit)
    && (r.Ok? ==> after == before + layout)
  }

  class Writer {
    var bytes: seq<byte>
    const limit: nat

    ghost predicate Valid()
      reads this
    {
      |bytes| <= limit
    }

    constructor (limit: nat)
      ensures Valid() && bytes == [] && this.limit == limit
    {
      this.bytes, this.limit := [], limit;
    }

    method Put(value: seq<byte>) returns (r: Written)
      requires Valid()
      modifies this
      ensures Valid()
      ensures Writes(r, old(bytes), bytes, limit, value)
    {
      if |bytes| + |value| > limit {
        return Err(Capacity);
      }
      bytes := bytes + value;
      return Ok(());
    }

    method U32(n: nat) returns (r: Written)
      requires Valid()
      modifies this
      ensures Valid()
      ensures n >= U32_LIMIT ==> r.Err?
      ensures n < U32_LIMIT ==> Writes(r, old(bytes), bytes, limit, Le(n, 4))
    {
      if n >= U32_LIMIT {
        return Err(Capacity);
      }
      r := Put(Le(n, 4));
    }

    method Text(value: seq<byte>, cap: nat) returns (r: Written)
      requires Valid()
      modifies this
      ensures Valid()
      ensures !NameFits(value, cap) ==> r.Err?
      ensures NameFits(value, cap) ==> Writes(r, old(bytes), bytes, limit, TextLayout(value))
    {
      hide Le;
      if value == [] || |value| > cap {
        return Err(Capacity);
      }
      var _ :- U32(|value|);
      r := Put(value);
      assert old(bytes) + Le(|value|, 4) + value == old(bytes) + TextLayout(value);
    }

    method Timestamp(t: Time) returns (r: Written)
      requires Valid()
      modifies this
      ensures Valid()
      ensures t < 0 ==> r.Err?
      ensures t >= 0 ==> Writes(r, old(bytes), bytes, limit, TimeLayout(t))
    {
      hide Le;
      if t < 0 {
        return Err(Corrupt);
      }
      var _ :- Put(Le(t / 1_000_000_000, 8));
      r := U32(t % 1_000_000_000);
      assert old(bytes) + Le(t / 1_000_000_000, 8) + Le(t % 1_000_000_000, 4) == old(bytes) + TimeLayout(t);
    }

    method Size(size: Option<i64>) returns (r: Written)
      requires Valid()
      modifies this
      ensures Valid()
      ensures size.Some? && size.value < 0 ==> r.Err?
      ensures (size.Some? ==> size.value >= 0) ==> Writes(r, old(bytes), bytes, limit, SizeLayout(size))
    {
      hide Le;
      if size.None? {
        r := Put([0]);
      } else if size.value < 0 {
        r := Err(Corrupt);
      } else {
        var _ :- Put([1]);
        r := Put(Le(size.value, 8));
        assert old(bytes) + [1] + Le(size.value, 8) == old(bytes) + SizeLayout(size);
      }
    }

    method EtagBytes(t: ETag, cap: nat) returns (r: Written)
      requires Valid()
      modifies this
      ensures Valid()
      ensures EtagTextLen(t) > cap || EtagTextLen(t) >= U32_LIMIT ==> r.Err?
      ensures EtagTextLen(t) <= cap && EtagTextLen(t) < U32_LIMIT ==>
          Writes(r, old(bytes), bytes, limit, TextLayout(EtagWire(t)))
    {
      hide Le, Utf8, EtagWire, EtagTextLen;
      EtagWireLength(t);
      if EtagTextLen(t) > cap {
        return Err(Capacity);
      }
      var _ :- U32(EtagTextLen(t));
      r := Quoted(t);
      Appended(old(bytes), Le(EtagTextLen(t), 4), EtagWire(t));
    }

    method Quoted(t: ETag) returns (r: Written)
      requires Valid()
      modifies this
      ensures Valid()
      ensures Writes(r, old(bytes), bytes, limit, EtagWire(t))
    {
      hide Utf8;
      var prefix := if t.Strong? then [QUOTE] else [0x57, 0x2F, QUOTE];
      assert EtagWire(t) == prefix + t.raw + [QUOTE];
      hide EtagWire;
      var _ :- Put(prefix);
      var _ :- Put(t.raw);
      r := Put([QUOTE]);
      assert old(bytes) + prefix + t.raw + [QUOTE] == old(bytes) + (prefix + t.raw + [QUOTE]);
    }

    method Etag(etag: Option<ETag>, cap: nat) returns (r: Written)
      requires Valid()
      modifies this
      ensures Valid()
      ensures (etag.Some? ==> EtagTextLen(etag.value) <= cap && EtagTextLen(etag.value) < U32_LIMIT)
              ==> Writes(r, old(bytes), bytes, limit, EtagLayout(etag))
      ensures etag.Some? && (EtagTextLen(etag.value) > cap || EtagTextLen(etag.value) >= U32_LIMIT) ==> r.Err?
    {
      hide Le, Utf8, EtagWire, EtagTextLen;
      if etag.None? {
        r := Put([0]);
      } else {
        var _ :- Put([1]);
        r := EtagBytes(etag.value, cap);
        assert old(bytes) + [1] + TextLayout(EtagWire(etag.value)) == old(bytes) + EtagLayout(etag);
      }
    }

    method Entry(key: Text, e: Entry, cap: nat) returns (r: Written)
      requires Valid()
      modifies this
      ensures Valid()
      ensures !EntryFits(key, e, cap) ==> r.Err?
      ensures EntryFits(key, e, cap) ==> Writes(r, old(bytes), bytes, limit, EntryLayout(key, e))
    {
      hide Le, Utf8, TextLayout, SizeLayout, TimeLayout, EtagLayout, EtagTextLen;
      var _ :- Text(key, cap);
      var _ :- Size(e.size);
      var _ :- Timestamp(e.lastModified);
      var _ :- Etag(e.etag, cap);
      r := Text(e.storageClass, cap);
      if EntryFits(key, e, cap) {
        Joined(old(bytes), TextLayout(key), SizeLayout(e.size), TimeLayout(e.lastModified),
               EtagLayout(e.etag), TextLayout(e.storageClass));
      }
    }

    method Gone(key: Text, at: Time, cap: nat) returns (r: Written)
      requires Valid()
      modifies this
      ensures Valid()
      ensures !NameFits(key, cap) || at < 0 ==> r.Err?
      ensures NameFits(key, cap) && at >= 0 ==> Writes(r, old(bytes), bytes, limit, GoneLayout(key, at))
    {
      hide Le, Utf8, TextLayout, TimeLayout;
      var _ :- Text(key, cap);
      r := Timestamp(at);
      if NameFits(key, cap) && at >= 0 {
        assert old(bytes) + TextLayout(key) + TimeLayout(at) == old(bytes) + GoneLayout(key, at);
      }
    }
  }

  lemma Appended(p: seq<byte>, a: seq<byte>, b: seq<byte>)
    ensures p + a + b == p + (a + b)
  {}

  lemma Joined(p: seq<byte>, a: seq<byte>, b: seq<byte>, c: seq<byte>, d: seq<byte>, e: seq<byte>)
    ensures p + a + b + c + d + e == p + (a + (b + (c + (d + e))))
  {}

  // ----- reading -----

  /** The reader returned what the parse function does and stands where it does. */
  ghost predicate Reads<T>(p: Parse<T>, r: Result<T, ImageError>, rest: seq<byte>) {
    match p
    case Ok(parsed) => r == Ok(parsed.value) && rest == parsed.rest
    case Err(e) => r == Err(e)
  }

  class Reader {
    const bytes: seq<byte>
    var offset: nat

    ghost predicate Valid()
      reads this
    {
      offset <= |bytes|
    }

    ghost function Rest(): seq<byte>
      requires Valid()
      reads this
    {
      bytes[offset..]
    }

    constructor (bytes: seq<byte>)
      ensures Valid() && Rest() == bytes && this.bytes == bytes
    {
      this.bytes, this.offset := bytes, 0;
    }

    method Take(count: nat) returns (r: Result<seq<byte>, ImageError>)
      requires Valid()
      modifies this
      ensures Valid() && Reads(Wire.Take(old(Rest()), count), r, Rest())
    {
      var end := offset + count;
      if end > |bytes| {
        return Err(Corrupt);
      }
      assert Rest()[..count] == bytes[offset..end] && Rest()[count..] == bytes[end..];
      r := Ok(bytes[offset..end]);
      offset := end;
    }

    method U8() returns (r: Result<byte, ImageError>)
      requires Valid()
      modifies this
      ensures Valid() && Reads(ReadU8(old(Rest())), r, Rest())
    {
      var part :- Take(1);
      r := Ok(part[0]);
    }

    method Le(width: nat) returns (r: Result<nat, ImageError>)
      requires Valid()
      modifies this
      ensures Valid() && Reads(ReadLe(old(Rest()), width), r, Rest())
    {
      hide FromLe;
      var raw :- Take(width);
      r := Ok(FromLe(raw));
    }

    method Text(cap: nat) returns (r: Result<Text, ImageError>)
      requires Valid()
      modifies this
      ensures Valid() && Reads(ReadText(old(Rest()), cap), r, Rest())
    {
      hide Utf8, FromLe, ReadLe;
      var size :- Le(4);
      if size == 0 || size > cap {
        return Err(Capacity);
      }
      var raw :- Take(size);
      if !Utf8(raw) {
        return Err(Corrupt);
      }
      r := Ok(raw);
    }

    method Timestamp() returns (r: Result<Time, ImageError>)
      requires Valid()
      modifies this
      ensures Valid() && Reads(ReadTime(old(Rest())), r, Rest())
    {
      hide FromLe, ReadLe;
      var seconds :- Le(8);
      var nanos :- Le(4);
      if nanos >= 1_000_000_000 || seconds >= I64_LIMIT {
        return Err(Corrupt);
      }
      r := Ok(seconds * 1_000_000_000 + nanos);
    }

    method Size() returns (r: Result<Option<i64>, ImageError>)
      requires Valid()
      modifies this
      ensures Valid() && Reads(ReadSize(old(Rest())), r, Rest())
    {
      hide FromLe, ReadLe;
      var tag :- U8();
      if tag == 0 {
        return Ok(None);
      }
      if tag != 1 {
        return Err(Corrupt);
      }
      var size :- Le(8);
      if size >= I64_LIMIT {
        return Err(Corrupt);
      }
      r := Ok(Some(size));
    }

    method EtagText(cap: nat) returns (r: Result<Option<Text>, ImageError>)
      requires Valid()
      modifies this
      ensures Valid() && Reads(ReadEtagText(old(Rest()), cap), r, Rest())
    {
      hide ReadText, Utf8;
      var tag :- U8();
      if tag == 0 {
        return Ok(None);
      }
      if tag != 1 {
        return Err(Corrupt);
      }
      var text :- Text(cap);
      r := Ok(Some(text));
    }

    method Entry(budget: DecodeBudget, cap: nat) returns (r: Result<(Text, Entry), ImageError>)
      requires Valid() && budget.Valid()
      modifies this, budget
      ensures Valid() && (r.Ok? ==> budget.Valid())
      ensures match ReadEntry(old(Rest()), old(budget.Left()), cap)
        case Ok(p) => r == Ok((p.value.key, p.value.entry)) && Rest() == p.rest && budget.Left() == p.value.left
        case Err(e) => r == Err(e)
    {
      hide ReadText, ReadSize, ReadTime, ReadEtagText, ParseEtag, EntryChargeOf, Utf8;
      var key :- Text(cap);
      var size :- Size();
      var time :- Timestamp();
      var etag :- EtagText(cap);
      var storageClass :- Text(cap);
      var tagLen := if etag.Some? then Some(|etag.value|) else None;
      var _ :- budget.Take(EntryChargeOf(|key|, tagLen, |storageClass|));
      var tag: Option<ETag> := None;
      if etag.Some? {
        tag := ParseEtag(etag.value);
        if tag.None? {
          return Err(Corrupt);
        }
      }
      r := Ok((key, Entries.Entry(size, time, tag, storageClass, None, None)));
    }
  }

  class DecodeBudget {
    var used: nat
    const limit: nat

    ghost predicate Valid()
      reads this
    {
      used <= limit
    }

    ghost function Left(): nat
      requires Valid()
      reads this
    {
      limit - used
    }

    constructor (limit: nat)
      ensures Valid() && Left() == limit && this.limit == limit
    {
      this.used, this.limit := 0, limit;
    }

    /** Charge `bytes`; a refused budget is spent for good. */
    method Take(bytes: nat) returns (r: Result<(), ImageError>)
      requires Valid()
      modifies this
      ensures match Charge(old(Left()), bytes)
        case Ok(left) => r == Ok(()) && Valid() && Left() == left
        case Err(e) => r == Err(e)
    {
      used := used + bytes;
      if used > limit {
        return Err(Capacity);
      }
      return Ok(());
    }
  }

  // ----- donor effects -----

  method EncodePut(bucket: Text, key: Text, e: Entry, maxEvent: nat, cap: nat)
    returns (r: Result<seq<byte>, ImageError>)
    ensures r.Ok? <==> Delta.EncodeDelta(Delta.Put(bucket, key, e), maxEvent, cap).Some?
    ensures r.Ok? ==> r.value == Delta.EncodeDelta(Delta.Put(bucket, key, e), maxEvent, cap).value
  {
    hide EtagTextLen, EntryLayout, TextLayout, Utf8;
    var w := new Writer(maxEvent);
    var _ :- w.Put([Delta.DELTA_VERSION]);
    var _ :- w.Put([1]);
    assert w.bytes == [Delta.DELTA_VERSION, 1];
    var _ :- w.Text(bucket, cap);
    var _ :- w.Entry(key, e, cap);
    assert w.bytes == [Delta.DELTA_VERSION, 1] + TextLayout(bucket) + EntryLayout(key, e);
    assert w.bytes == Delta.DeltaLayout(Delta.Put(bucket, key, e));
    return Ok(w.bytes);
  }

  method EncodeDelete(bucket: Text, key: Text, at: Time, maxEvent: nat, cap: nat)
    returns (r: Result<seq<byte>, ImageError>)
    ensures r.Ok? <==> Delta.EncodeDelta(Delta.Delete(bucket, key, at), maxEvent, cap).Some?
    ensures r.Ok? ==> r.value == Delta.EncodeDelta(Delta.Delete(bucket, key, at), maxEvent, cap).value
  {
    hide GoneLayout, TextLayout, Utf8;
    var w := new Writer(maxEvent);
    var _ :- w.Put([Delta.DELTA_VERSION]);
    var _ :- w.Put([2]);
    assert w.bytes == [Delta.DELTA_VERSION, 2];
    var _ :- w.Text(bucket, cap);
    var _ :- w.Gone(key, at, cap);
    assert w.bytes == [Delta.DELTA_VERSION, 2] + TextLayout(bucket) + GoneLayout(key, at);
    assert w.bytes == Delta.DeltaLayout(Delta.Delete(bucket, key, at));
    return Ok(w.bytes);
  }

  method EncodeDelta(d: Delta.Delta, maxEvent: nat, cap: nat) returns (r: Result<seq<byte>, ImageError>)
    ensures r.Ok? <==> Delta.EncodeDelta(d, maxEvent, cap).Some?
    ensures r.Ok? ==> r.value == Delta.EncodeDelta(d, maxEvent, cap).value
  {
    hide EtagTextLen, EntryLayout, GoneLayout, TextLayout, Utf8;
    if cap == 0 || maxEvent == 0 {
      return Err(Capacity);
    }
    match d {
      case Put(bucket, key, entry) => r := EncodePut(bucket, key, entry, maxEvent, cap);
      case Delete(bucket, key, at) => r := EncodeDelete(bucket, key, at, maxEvent, cap);
      case Noop => r := EncodeNoop(maxEvent);
    }
  }

  method EncodeNoop(maxEvent: nat) returns (r: Result<seq<byte>, ImageError>)
    ensures r.Ok? <==> 2 <= maxEvent
    ensures r.Ok? ==> r.value == Delta.DeltaLayout(Delta.Noop)
  {
    var w := new Writer(maxEvent);
    var _ :- w.Put([Delta.DELTA_VERSION]);
    var _ :- w.Put([3]);
    assert w.bytes == Delta.DeltaLayout(Delta.Noop);
    return Ok(w.bytes);
  }

  method ReadEffect(reader: Reader, budget: DecodeBudget, cap: nat) returns (r: Result<Delta.Delta, ImageError>)
    requires reader.Valid() && budget.Valid()
    modifies reader, budget
    ensures reader.Valid() && Reads(Delta.ReadDelta(old(reader.Rest()), old(budget.Left()), cap), r, reader.Rest())
  {
    hide ReadText, ReadEntry, ReadTime, Utf8;
    var kind :- reader.U8();
    if kind == 1 {
      var bucket :- reader.Text(cap);
      var _ :- budget.Take(|bucket|);
      var row :- reader.Entry(budget, cap);
      return Ok(Delta.Put(bucket, row.0, row.1));
    } else if kind == 2 {
      var bucket :- reader.Text(cap);
      var _ :- budget.Take(|bucket|);
      var key :- reader.Text(cap);
      var _ :- budget.Take(|key|);
      var at :- reader.Timestamp();
      return Ok(Delta.Delete(bucket, key, at));
    } else if kind == 3 {
      return Ok(Delta.Noop);
    }
    return Err(Schema);
  }

  method DecodeDelta(bytes: seq<byte>, maxEvent: nat, cap: nat, maxDecoded: nat)
    returns (r: Result<Delta.Delta, ImageError>)
    ensures r == Delta.DecodeDelta(bytes, maxEvent, cap, maxDecoded)
  {
    hide Delta.ReadDelta, Utf8;
    if bytes == [] || |bytes| > maxEvent || cap == 0 {
      return Err(Capacity);
    }
    var reader := new Reader(bytes);
    var version := reader.U8();
    if version.value != Delta.DELTA_VERSION {
      return Err(Schema);
    }
    if maxDecoded == 0 {
      return Err(Capacity);
    }
    assert reader.Rest() == bytes[1..];
    r := FinishDelta(reader, cap, maxDecoded);
  }

  /** The one effect after the version byte, which must be all there is. */
  method FinishDelta(reader: Reader, cap: nat, maxDecoded: nat) returns (r: Result<Delta.Delta, ImageError>)
    requires reader.Valid()
    modifies reader
    ensures match Delta.ReadDelta(old(reader.Rest()), maxDecoded, cap)
      case Ok(p) => r == (if p.rest == [] then Ok(p.value) else Err(Corrupt))
      case Err(e) => r == Err(e)
  {
    hide Delta.ReadDelta, Utf8;
    var budget := new DecodeBudget(maxDecoded);
    r := ReadEffect(reader, budget, cap);
    if r.Ok? && reader.offset != |reader.bytes| {
      r := Err(Corrupt);
    }
  }
}
