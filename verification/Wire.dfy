/** The byte layout of index rows and donor effects (src/index/fleet.rs and
    src/index/fleet/delta.rs): what each encoder writes, what each decoder reads. */
module Wire {
  import opened Base
  import opened Entries

  datatype ImageError = Capacity | Incomplete | Corrupt | Schema

  const QUOTE: byte := 0x22

  // ----- layouts -----

  function TextLayout(s: seq<byte>): seq<byte> { Le(|s|, 4) + s }

  function TimeLayout(t: Time): seq<byte>
    requires t >= 0
  {
    Le(t / 1_000_000_000, 8) + Le(t % 1_000_000_000, 4)
  }

  function EtagWire(t: ETag): seq<byte> {
    match t
    case Strong(raw) => [QUOTE] + raw + [QUOTE]
    case Weak(raw) => [0x57, 0x2F, QUOTE] + raw + [QUOTE]
  }

  function SizeLayout(size: Option<i64>): seq<byte>
    requires size.Some? ==> size.value >= 0
  {
    if size.Some? then [1] + Le(size.value, 8) else [0]
  }

  function EtagLayout(etag: Option<ETag>): seq<byte> {
    if etag.Some? then [1] + TextLayout(EtagWire(etag.value)) else [0]
  }

  predicate NameFits(s: seq<byte>, cap: nat) { 0 < |s| <= cap && |s| < U32_LIMIT }

  /** The rows the codec accepts: names, tag and class within the cap, a size and a time
      it can write. */
  predicate EntryFits(key: Text, e: Entry, cap: nat) {
    && NameFits(key, cap)
    && (e.size.Some? ==> e.size.value >= 0)
    && e.lastModified >= 0
    && (e.etag.Some? ==> EtagTextLen(e.etag.value) <= cap && EtagTextLen(e.etag.value) < U32_LIMIT)
    && NameFits(e.storageClass, cap)
  }

  function EntryLayout(key: Text, e: Entry): seq<byte>
    requires e.size.Some? ==> e.size.value >= 0
    requires e.lastModified >= 0
  {
    TextLayout(key) + (SizeLayout(e.size)
                       + (TimeLayout(e.lastModified) + (EtagLayout(e.etag) + TextLayout(e.storageClass))))
  }

  function GoneLayout(key: Text, at: Time): seq<byte>
    requires at >= 0
  {
    TextLayout(key) + TimeLayout(at)
  }

  lemma EtagWireLength(t: ETag)
    ensures |EtagWire(t)| == EtagTextLen(t)
  {}

  /** The measured size of a row is the number of bytes its layout takes. */
  lemma LayoutSizes(key: Text, e: Entry, at: Time)
    requires e.size.Some? ==> e.size.value >= 0
    requires e.lastModified >= 0 && at >= 0
    ensures |EntryLayout(key, e)| == EntryBytes(|key|, e)
    ensures |GoneLayout(key, at)| == GoneBytes(|key|)
  {
    if e.etag.Some? { EtagWireLength(e.etag.value); }
  }

  // ----- readers: a value and the bytes left after it -----

  datatype Parsed<+T> = Parsed(value: T, rest: seq<byte>)

  type Parse<+T> = Result<Parsed<T>, ImageError>

  function Take(s: seq<byte>, count: nat): Parse<seq<byte>> {
    if count <= |s| then Ok(Parsed(s[..count], s[count..])) else Err(Corrupt)
  }

  function ReadU8(s: seq<byte>): Parse<byte> {
    if |s| >= 1 then Ok(Parsed(s[0], s[1..])) else Err(Corrupt)
  }

  function ReadLe(s: seq<byte>, width: nat): Parse<nat> {
    if width <= |s| then Ok(Parsed(FromLe(s[..width]), s[width..])) else Err(Corrupt)
  }

  function ReadText(s: seq<byte>, cap: nat): Parse<Text> {
    var size :- ReadLe(s, 4);
    if size.value == 0 || size.value > cap then Err(Capacity) else
    var raw :- Take(size.rest, size.value);
    if Utf8(raw.value) then Ok(Parsed(raw.value, raw.rest)) else Err(Corrupt)
  }

  function ReadTime(s: seq<byte>): Parse<Time> {
    var seconds :- ReadLe(s, 8);
    var nanos :- ReadLe(seconds.rest, 4);
    if nanos.value >= 1_000_000_000 then Err(Corrupt)
    else if seconds.value >= I64_LIMIT then Err(Corrupt)
    else Ok(Parsed(seconds.value * 1_000_000_000 + nanos.value, nanos.rest))
  }

  function ReadSize(s: seq<byte>): Parse<Option<i64>> {
    var tag :- ReadU8(s);
    if tag.value == 0 then Ok(Parsed(None, tag.rest))
    else if tag.value == 1 then
      var size :- ReadLe(tag.rest, 8);
      if size.value < I64_LIMIT then Ok(Parsed(Some(size.value), size.rest)) else Err(Corrupt)
    else Err(Corrupt)
  }

  function ReadEtagText(s: seq<byte>, cap: nat): Parse<Option<Text>> {
    var tag :- ReadU8(s);
    if tag.value == 0 then Ok(Parsed(None, tag.rest))
    else if tag.value == 1 then
      var text :- ReadText(tag.rest, cap);
      Ok(Parsed(Some(text.value), text.rest))
    else Err(Corrupt)
  }

  predicate IsEtagText(s: seq<byte>) { Utf8(s) && forall i :: 0 <= i < |s| ==> EtagChar(s[i]) }

  function ParseEtag(t: Text): Option<ETag> {
    var n := |t|;
    if n >= 2 && t[0] == QUOTE && t[n - 1] == QUOTE && IsEtagText(t[1..n - 1]) then Some(Strong(t[1..n - 1]))
    else if n >= 4 && t[..3] == [0x57, 0x2F, QUOTE] && t[n - 1] == QUOTE && IsEtagText(t[3..n - 1])
    then Some(Weak(t[3..n - 1]))
    else None
  }

  /** What a budget of `left` has after charging `bytes`. */
  function Charge(left: nat, bytes: nat): Result<nat, ImageError> {
    if bytes <= left then Ok(left - bytes) else Err(Capacity)
  }

  datatype Row = Row(key: Text, entry: Entry, left: nat)

  function ReadEntry(s: seq<byte>, left: nat, cap: nat): Parse<Row> {
    var key :- ReadText(s, cap);
    var size :- ReadSize(key.rest);
    var time :- ReadTime(size.rest);
    var etag :- ReadEtagText(time.rest, cap);
    var class_ :- ReadText(etag.rest, cap);
    var tagLen := if etag.value.Some? then Some(|etag.value.value|) else None;
    var left' :- Charge(left, EntryChargeOf(|key.value|, tagLen, |class_.value|));
    var tag := if etag.value.Some? then ParseEtag(etag.value.value) else None;
    if etag.value.Some? && tag.None? then Err(Corrupt)
    else Ok(Parsed(Row(key.value, Entry(size.value, time.value, tag, class_.value, None, None), left'), class_.rest))
  }

  // ----- limits decide only whether something is read -----

  lemma TextAgrees(s: seq<byte>, cap: nat, cap': nat)
    requires ReadText(s, cap).Ok? && ReadText(s, cap').Ok?
    ensures ReadText(s, cap) == ReadText(s, cap')
  {}

  lemma EtagAgrees(s: seq<byte>, cap: nat, cap': nat)
    requires ReadEtagText(s, cap).Ok? && ReadEtagText(s, cap').Ok?
    ensures ReadEtagText(s, cap) == ReadEtagText(s, cap')
  {
    hide ReadText, Utf8;
    if s[0] == 1 { TextAgrees(s[1..], cap, cap'); }
  }

  lemma EntryAgrees(s: seq<byte>, left: nat, cap: nat, left': nat, cap': nat)
    requires ReadEntry(s, left, cap).Ok? && ReadEntry(s, left', cap').Ok?
    ensures var (a, b) := (ReadEntry(s, left, cap).value, ReadEntry(s, left', cap').value);
      a.value.key == b.value.key && a.value.entry == b.value.entry && a.rest == b.rest
  {
    hide ReadText, ReadSize, ReadTime, ReadEtagText, ParseEtag, EntryChargeOf, Utf8;
    TextAgrees(s, cap, cap');
    var time := ReadTime(ReadSize(ReadText(s, cap).value.rest).value.rest).value;
    EtagAgrees(time.rest, cap, cap');
    TextAgrees(ReadEtagText(time.rest, cap).value.rest, cap, cap');
  }

  // ----- reading what was written -----

  lemma ReadLeRoundTrip(n: nat, width: nat, q: seq<byte>)
    requires n < Pow256(width)
    ensures ReadLe(Le(n, width) + q, width) == Ok(Parsed(n, q))
  {
    LeRoundTrip(n, width);
    assert (Le(n, width) + q)[..width] == Le(n, width);
    assert (Le(n, width) + q)[width..] == q;
  }

  lemma ReadTextRoundTrip(t: Text, cap: nat, q: seq<byte>)
    requires NameFits(t, cap)
    ensures ReadText(TextLayout(t) + q, cap) == Ok(Parsed(t, q))
  {
    hide Utf8, Le, FromLe;
    Widths();
    ReadLeRoundTrip(|t|, 4, t + q);
    assert TextLayout(t) + q == Le(|t|, 4) + (t + q);
    assert (t + q)[..|t|] == t && (t + q)[|t|..] == q;
  }

  lemma ReadTimeRoundTrip(t: Time, q: seq<byte>)
    requires t >= 0
    ensures ReadTime(TimeLayout(t) + q) == Ok(Parsed(t, q))
  {
    hide Le, FromLe;
    Widths();
    var (seconds, nanos) := (t / 1_000_000_000, t % 1_000_000_000);
    ReadLeRoundTrip(seconds, 8, Le(nanos, 4) + q);
    ReadLeRoundTrip(nanos, 4, q);
    assert TimeLayout(t) + q == Le(seconds, 8) + (Le(nanos, 4) + q);
  }

  lemma ReadSizeRoundTrip(size: Option<i64>, q: seq<byte>)
    requires size.Some? ==> size.value >= 0
    ensures ReadSize(SizeLayout(size) + q) == Ok(Parsed(size, q))
  {
    hide Le, FromLe;
    var s := SizeLayout(size) + q;
    if size.Some? {
      Widths();
      ReadLeRoundTrip(size.value, 8, q);
      assert s[1..] == Le(size.value, 8) + q;
    } else {
      assert s[1..] == q;
    }
  }

  lemma EtagWireIsText(t: ETag)
    ensures Utf8(EtagWire(t)) && |EtagWire(t)| >= 2
  {
    hide Utf8;
    AsciiIsUtf8([QUOTE]);
    AsciiIsUtf8([0x57, 0x2F, QUOTE]);
    match t {
      case Strong(raw) => Utf8Concat([QUOTE], raw); Utf8Concat([QUOTE] + raw, [QUOTE]);
      case Weak(raw) => Utf8Concat([0x57, 0x2F, QUOTE], raw); Utf8Concat([0x57, 0x2F, QUOTE] + raw, [QUOTE]);
    }
  }

  lemma ParseEtagRoundTrip(t: ETag)
    ensures Utf8(EtagWire(t)) && ParseEtag(EtagWire(t)) == Some(t)
  {
    EtagWireIsText(t);
    var w := EtagWire(t);
    match t {
      case Strong(raw) => assert w[1..|w| - 1] == raw;
      case Weak(raw) => assert w[..3] == [0x57, 0x2F, QUOTE]; assert w[3..|w| - 1] == raw;
    }
  }

  lemma ReadEtagRoundTrip(etag: Option<ETag>, cap: nat, q: seq<byte>)
    requires etag.Some? ==> EtagTextLen(etag.value) <= cap && EtagTextLen(etag.value) < U32_LIMIT
    ensures etag.Some? ==> Utf8(EtagWire(etag.value))
    ensures ReadEtagText(EtagLayout(etag) + q, cap) ==
            Ok(Parsed(if etag.Some? then Some(EtagWire(etag.value)) else None, q))
  {
    hide Utf8, TextLayout, ReadText, EtagWire;
    var s := EtagLayout(etag) + q;
    if etag.Some? {
      EtagWireIsText(etag.value);
      EtagWireLength(etag.value);
      ReadTextRoundTrip(EtagWire(etag.value), cap, q);
      assert s[1..] == TextLayout(EtagWire(etag.value)) + q;
    } else {
      assert s[1..] == q;
    }
  }

  /** The skeleton of a row, read for its own charge. */
  function RowRead(key: Text, e: Entry, left: nat, q: seq<byte>): Parse<Row> {
    if EntryCharge(|key|, e) <= left
    then Ok(Parsed(Row(key, Skeleton(e), left - EntryCharge(|key|, e)), q))
    else Err(Capacity)
  }

  /** A row is read from its fields, in order. */
  lemma ReadEntryFields(s: seq<byte>, q: seq<byte>, key: Text, e: Entry, left: nat, cap: nat,
                        q1: seq<byte>, q2: seq<byte>, q3: seq<byte>, q4: seq<byte>)
    requires ReadText(s, cap) == Ok(Parsed(key, q1))
    requires ReadSize(q1) == Ok(Parsed(e.size, q2))
    requires ReadTime(q2) == Ok(Parsed(e.lastModified, q3))
    requires e.etag.Some? ==> Utf8(EtagWire(e.etag.value))
    requires ReadEtagText(q3, cap) == Ok(Parsed(if e.etag.Some? then Some(EtagWire(e.etag.value)) else None, q4))
    requires ReadText(q4, cap) == Ok(Parsed(e.storageClass, q))
    ensures ReadEntry(s, left, cap) == RowRead(key, e, left, q)
  {
    hide Utf8, EtagWire, ReadText, ReadSize, ReadTime, ReadEtagText, ParseEtag;
    if e.etag.Some? {
      EtagWireLength(e.etag.value);
      ParseEtagRoundTrip(e.etag.value);
    }
  }

  lemma EntryLayoutSplit(key: Text, e: Entry, q: seq<byte>)
    requires e.size.Some? ==> e.size.value >= 0
    requires e.lastModified >= 0
    ensures EntryLayout(key, e) + q ==
            TextLayout(key) + (SizeLayout(e.size)
                               + (TimeLayout(e.lastModified) + (EtagLayout(e.etag) + (TextLayout(e.storageClass) + q))))
  {
    hide TextLayout, SizeLayout, TimeLayout, EtagLayout, Utf8;
    Associate(EtagLayout(e.etag), TextLayout(e.storageClass), q);
    Associate(TimeLayout(e.lastModified), EtagLayout(e.etag) + TextLayout(e.storageClass), q);
    Associate(SizeLayout(e.size), TimeLayout(e.lastModified) + (EtagLayout(e.etag) + TextLayout(e.storageClass)), q);
    Associate(TextLayout(key), SizeLayout(e.size)
              + (TimeLayout(e.lastModified) + (EtagLayout(e.etag) + TextLayout(e.storageClass))), q);
  }

  lemma Associate(a: seq<byte>, b: seq<byte>, c: seq<byte>)
    ensures (a + b) + c == a + (b + c)
  {}

  /** A written row reads back as its skeleton, for exactly its own charge. */
  lemma ReadEntryRoundTrip(key: Text, e: Entry, left: nat, cap: nat, q: seq<byte>)
    requires EntryFits(key, e, cap)
    ensures ReadEntry(EntryLayout(key, e) + q, left, cap) == RowRead(key, e, left, q)
  {
    hide Utf8, TextLayout, SizeLayout, TimeLayout, EtagLayout, EntryLayout, EtagWire, ReadText, ReadSize, ReadTime,
         ReadEtagText, ReadEntry, RowRead;
    var q4 := TextLayout(e.storageClass) + q;
    var q3 := EtagLayout(e.etag) + q4;
    var q2 := TimeLayout(e.lastModified) + q3;
    var q1 := SizeLayout(e.size) + q2;
    EntryLayoutSplit(key, e, q);
    ReadTextRoundTrip(key, cap, q1);
    ReadSizeRoundTrip(e.size, q2);
    ReadTimeRoundTrip(e.lastModified, q3);
    ReadEtagRoundTrip(e.etag, cap, q4);
    ReadTextRoundTrip(e.storageClass, cap, q);
    ReadEntryFields(TextLayout(key) + q1, q, key, e, left, cap, q1, q2, q3, q4);
  }

  // ----- a longer input reads the same value -----

  lemma TextStable(s: seq<byte>, cap: nat, q: seq<byte>)
    requires ReadText(s, cap).Ok?
    ensures ReadText(s + q, cap) ==
            Ok(Parsed(ReadText(s, cap).value.value, ReadText(s, cap).value.rest + q))
  {
    hide Utf8, FromLe;
    assert (s + q)[..4] == s[..4];
    assert (s + q)[4..] == s[4..] + q;
    var n := FromLe(s[..4]);
    assert (s[4..] + q)[..n] == s[4..][..n];
    assert (s[4..] + q)[n..] == s[4..][n..] + q;
  }

  lemma TimeStable(s: seq<byte>, q: seq<byte>)
    requires ReadTime(s).Ok?
    ensures ReadTime(s + q) == Ok(Parsed(ReadTime(s).value.value, ReadTime(s).value.rest + q))
  {
    hide Utf8, FromLe;
    assert (s + q)[..8] == s[..8] && (s + q)[8..] == s[8..] + q;
    assert (s[8..] + q)[..4] == s[8..][..4] && (s[8..] + q)[4..] == s[8..][4..] + q;
  }

  lemma SizeStable(s: seq<byte>, q: seq<byte>)
    requires ReadSize(s).Ok?
    ensures ReadSize(s + q) == Ok(Parsed(ReadSize(s).value.value, ReadSize(s).value.rest + q))
  {
    hide Utf8, FromLe;
    assert (s + q)[1..] == s[1..] + q;
    if s[0] == 1 {
      assert (s[1..] + q)[..8] == s[1..][..8] && (s[1..] + q)[8..] == s[1..][8..] + q;
    }
  }

  lemma EtagStable(s: seq<byte>, cap: nat, q: seq<byte>)
    requires ReadEtagText(s, cap).Ok?
    ensures ReadEtagText(s + q, cap) ==
            Ok(Parsed(ReadEtagText(s, cap).value.value, ReadEtagText(s, cap).value.rest + q))
  {
    hide Utf8, ReadText;
    assert (s + q)[1..] == s[1..] + q;
    if s[0] == 1 { TextStable(s[1..], cap, q); }
  }

  lemma EntryStable(s: seq<byte>, left: nat, cap: nat, q: seq<byte>)
    requires ReadEntry(s, left, cap).Ok?
    ensures ReadEntry(s + q, left, cap) ==
            Ok(Parsed(ReadEntry(s, left, cap).value.value, ReadEntry(s, left, cap).value.rest + q))
  {
    hide Utf8, ReadText, ReadSize, ReadTime, ReadEtagText, ParseEtag, EntryChargeOf;
    var key := ReadText(s, cap).value;
    var size := ReadSize(key.rest).value;
    var time := ReadTime(size.rest).value;
    var etag := ReadEtagText(time.rest, cap).value;
    TextStable(s, cap, q);
    SizeStable(key.rest, q);
    TimeStable(size.rest, q);
    EtagStable(time.rest, cap, q);
    TextStable(etag.rest, cap, q);
  }
}
