/** One final index effect carried in a donor's journal (src/index/fleet/delta.rs). */
module Delta {
  import opened Base
  import opened Entries
  import opened Wire

  datatype Delta =
    | Put(bucket: Text, key: Text, entry: Entry)
    | Delete(bucket: Text, key: Text, at: Time)
    | Noop

  /** What an effect carries to a peer: a put without Content-Type and user metadata. */
  function Skeletal(d: Delta): Delta {
    if d.Put? then d.(entry := Skeleton(d.entry)) else d
  }

  /** A size and a time the layout can express. */
  predicate Writable(d: Delta) {
    match d
    case Put(_, _, entry) => (entry.size.Some? ==> entry.size.value >= 0) && entry.lastModified >= 0
    case Delete(_, _, at) => at >= 0
    case Noop => true
  }

  predicate Encodable(d: Delta, cap: nat) {
    match d
    case Put(bucket, key, entry) => NameFits(bucket, cap) && EntryFits(key, entry, cap)
    case Delete(bucket, key, at) => NameFits(bucket, cap) && NameFits(key, cap) && at >= 0
    case Noop => cap > 0
  }

  const DELTA_VERSION: byte := 1

  function Body(d: Delta): seq<byte>
    requires Writable(d)
  {
    match d
    case Put(bucket, key, entry) => TextLayout(bucket) + EntryLayout(key, entry)
    case Delete(bucket, key, at) => TextLayout(bucket) + GoneLayout(key, at)
    case Noop => []
  }

  function Kind(d: Delta): byte {
    match d case Put(_, _, _) => 1 case Delete(_, _, _) => 2 case Noop => 3
  }

  function DeltaLayout(d: Delta): seq<byte>
    requires Writable(d)
  {
    [DELTA_VERSION, Kind(d)] + Body(d)
  }

  /** The bytes of an effect, when it fits an event of at most `maxEvent` bytes. */
  function EncodeDelta(d: Delta, maxEvent: nat, cap: nat): Option<seq<byte>> {
    if Encodable(d, cap) && |DeltaLayout(d)| <= maxEvent then Some(DeltaLayout(d)) else None
  }

  function DeltaCharge(d: Delta): nat {
    match d
    case Put(bucket, key, entry) => |bucket| + EntryCharge(|key|, entry)
    case Delete(bucket, key, _) => |bucket| + |key|
    case Noop => 0
  }

  function ReadDelta(s: seq<byte>, left: nat, cap: nat): Parse<Delta> {
    var kind :- ReadU8(s);
    if kind.value == 1 then
      var bucket :- ReadText(kind.rest, cap);
      var left' :- Charge(left, |bucket.value|);
      var row :- ReadEntry(bucket.rest, left', cap);
      Ok(Parsed(Put(bucket.value, row.value.key, row.value.entry), row.rest))
    else if kind.value == 2 then
      var bucket :- ReadText(kind.rest, cap);
      var left' :- Charge(left, |bucket.value|);
      var key :- ReadText(bucket.rest, cap);
      var _ :- Charge(left', |key.value|);
      var at :- ReadTime(key.rest);
      Ok(Parsed(Delete(bucket.value, key.value, at.value), at.rest))
    else if kind.value == 3 then Ok(Parsed(Noop, kind.rest))
    else Err(Schema)
  }

  function DecodeDelta(bytes: seq<byte>, maxEvent: nat, cap: nat, maxDecoded: nat): Result<Delta, ImageError> {
    if bytes == [] || |bytes| > maxEvent || cap == 0 then Err(Capacity) else
    if bytes[0] != DELTA_VERSION then Err(Schema) else
    if maxDecoded == 0 then Err(Capacity) else
    var delta :- ReadDelta(bytes[1..], maxDecoded, cap);
    if delta.rest == [] then Ok(delta.value) else Err(Corrupt)
  }

  lemma ReadPut(s: seq<byte>, bucket: Text, key: Text, entry: Entry, left: nat, cap: nat, q: seq<byte>)
    requires s != [] && s[0] == 1 && ReadText(s[1..], cap) == Ok(Parsed(bucket, q))
    requires |bucket| <= left ==> ReadEntry(q, left - |bucket|, cap) == RowRead(key, entry, left - |bucket|, [])
    ensures var d := Put(bucket, key, entry);
      ReadDelta(s, left, cap) == if DeltaCharge(d) <= left then Ok(Parsed(Skeletal(d), [])) else Err(Capacity)
  {
    hide Utf8, ReadText, ReadEntry, EntryCharge;
  }

  lemma ReadDelete(s: seq<byte>, bucket: Text, key: Text, at: Time, left: nat, cap: nat, q: seq<byte>, q': seq<byte>)
    requires s != [] && s[0] == 2 && ReadText(s[1..], cap) == Ok(Parsed(bucket, q))
    requires ReadText(q, cap) == Ok(Parsed(key, q'))
    requires ReadTime(q') == Ok(Parsed(at, []))
    ensures var d := Delete(bucket, key, at);
      ReadDelta(s, left, cap) == if DeltaCharge(d) <= left then Ok(Parsed(Skeletal(d), [])) else Err(Capacity)
  {
    hide Utf8, ReadText, ReadTime;
  }

  lemma Nothing(s: seq<byte>)
    ensures s + [] == s
  {}

  lemma ReadPutRoundTrip(d: Delta, left: nat, cap: nat, s: seq<byte>)
    requires d.Put? && Encodable(d, cap)
    requires s != [] && s[0] == 1 && s[1..] == Body(d)
    ensures ReadDelta(s, left, cap) == if DeltaCharge(d) <= left then Ok(Parsed(Skeletal(d), [])) else Err(Capacity)
  {
    hide Utf8, TextLayout, EntryLayout, ReadText, ReadEntry, RowRead, ReadDelta, DeltaCharge, Skeletal;
    var q := EntryLayout(d.key, d.entry);
    ReadTextRoundTrip(d.bucket, cap, q);
    if |d.bucket| <= left {
      ReadEntryRoundTrip(d.key, d.entry, left - |d.bucket|, cap, []);
      Nothing(q);
    }
    ReadPut(s, d.bucket, d.key, d.entry, left, cap, q);
  }

  lemma ReadDeleteRoundTrip(d: Delta, left: nat, cap: nat, s: seq<byte>)
    requires d.Delete? && Encodable(d, cap)
    requires s != [] && s[0] == 2 && s[1..] == Body(d)
    ensures ReadDelta(s, left, cap) == if DeltaCharge(d) <= left then Ok(Parsed(Skeletal(d), [])) else Err(Capacity)
  {
    hide Utf8, TextLayout, TimeLayout, ReadText, ReadTime, ReadDelta, DeltaCharge, Skeletal;
    var q := GoneLayout(d.key, d.at);
    ReadTextRoundTrip(d.bucket, cap, q);
    ReadTextRoundTrip(d.key, cap, TimeLayout(d.at));
    ReadTimeRoundTrip(d.at, []);
    Nothing(TimeLayout(d.at));
    ReadDelete(s, d.bucket, d.key, d.at, left, cap, q, TimeLayout(d.at));
  }

  lemma ReadDeltaRoundTrip(d: Delta, left: nat, cap: nat)
    requires Encodable(d, cap)
    ensures ReadDelta([Kind(d)] + Body(d), left, cap) ==
            if DeltaCharge(d) <= left then Ok(Parsed(Skeletal(d), [])) else Err(Capacity)
  {
    hide Utf8;
    var s := [Kind(d)] + Body(d);
    assert s[1..] == Body(d);
    match d {
      case Put(_, _, _) => ReadPutRoundTrip(d, left, cap, s);
      case Delete(_, _, _) => ReadDeleteRoundTrip(d, left, cap, s);
      case Noop =>
    }
  }

  /** An encoded effect decodes to its skeleton exactly when the decoder's budget covers
      its charge. */
  lemma DeltaRoundTrip(d: Delta, maxEvent: nat, cap: nat, maxDecoded: nat)
    requires EncodeDelta(d, maxEvent, cap).Some?
    ensures var r := DecodeDelta(EncodeDelta(d, maxEvent, cap).value, maxEvent, cap, maxDecoded);
      && (0 < maxDecoded && DeltaCharge(d) <= maxDecoded <==> r.Ok?)
      && (r.Ok? ==> r.value == Skeletal(d))
  {
    hide Utf8, ReadDelta, Body, Skeletal, DeltaCharge;
    var bytes := DeltaLayout(d);
    assert bytes[1..] == [Kind(d)] + Body(d) && bytes[0] == DELTA_VERSION;
    ReadDeltaRoundTrip(d, maxDecoded, cap);
  }

  lemma ReadDeltaStable(s: seq<byte>, left: nat, cap: nat, q: seq<byte>)
    requires ReadDelta(s, left, cap).Ok?
    ensures ReadDelta(s + q, left, cap) ==
            Ok(Parsed(ReadDelta(s, left, cap).value.value, ReadDelta(s, left, cap).value.rest + q))
  {
    hide Utf8, ReadText, ReadTime, ReadEntry;
    var t := s[1..];
    assert (s + q)[1..] == t + q;
    if s[0] == 1 {
      TextStable(t, cap, q);
      var bucket := ReadText(t, cap).value;
      EntryStable(bucket.rest, left - |bucket.value|, cap, q);
    } else if s[0] == 2 {
      TextStable(t, cap, q);
      var bucket := ReadText(t, cap).value;
      TextStable(bucket.rest, cap, q);
      TimeStable(ReadText(bucket.rest, cap).value.rest, q);
    }
  }

  lemma ReadDeltaAgrees(s: seq<byte>, left: nat, cap: nat, left': nat, cap': nat)
    requires ReadDelta(s, left, cap).Ok? && ReadDelta(s, left', cap').Ok?
    ensures ReadDelta(s, left, cap) == ReadDelta(s, left', cap')
  {
    hide ReadText, ReadTime, ReadEntry, Utf8;
    if s[0] == 1 {
      TextAgrees(s[1..], cap, cap');
      var bucket := ReadText(s[1..], cap).value;
      EntryAgrees(bucket.rest, left - |bucket.value|, cap, left' - |bucket.value|, cap');
    } else if s[0] == 2 {
      TextAgrees(s[1..], cap, cap');
      TextAgrees(ReadText(s[1..], cap).value.rest, cap, cap');
    }
  }

  /** Two nodes that both decode an effect, each under limits of its own, decode the same. */
  lemma LimitsAgree(bytes: seq<byte>, maxEvent: nat, cap: nat, maxDecoded: nat, maxEvent': nat, cap': nat,
                    maxDecoded': nat)
    requires DecodeDelta(bytes, maxEvent, cap, maxDecoded).Ok? && DecodeDelta(bytes, maxEvent', cap', maxDecoded').Ok?
    ensures DecodeDelta(bytes, maxEvent, cap, maxDecoded) == DecodeDelta(bytes, maxEvent', cap', maxDecoded')
  {
    hide ReadDelta;
    ReadDeltaAgrees(bytes[1..], maxDecoded, cap, maxDecoded', cap');
  }

  /** No effect is a strict prefix of another: cut short or run on, its bytes are refused. */
  lemma DeltaPrefixFree(bytes: seq<byte>, q: seq<byte>, maxEvent: nat, cap: nat, maxDecoded: nat)
    requires DecodeDelta(bytes, maxEvent, cap, maxDecoded).Ok? && q != []
    ensures DecodeDelta(bytes + q, maxEvent, cap, maxDecoded).Err?
  {
    hide Utf8, ReadDelta;
    assert (bytes + q)[1..] == bytes[1..] + q;
    ReadDeltaStable(bytes[1..], maxDecoded, cap, q);
  }
}
