/** The read-only decoder of the layout earlier releases wrote (src/codec/legacy.rs), over
    every shape of value a target type can ask it for. */
module Legacy {
  import opened Base

  datatype LegacyError = Truncated | Trailing | Invalid

  datatype List<+T> = Nil | Cons(head: T, tail: List<T>)

  function Length<T>(xs: List<T>): nat { if xs.Nil? then 0 else 1 + Length(xs.tail) }

  /** What a target type asks for, in order. A map is a sequence of two-field tuples; a
      number is its little-endian bytes. */
  datatype Schema =
    | Fixed(width: nat)
    | Flag
    | Char
    | Str
    | Blob
    | Unit
    | Optional(of: Schema)
    | Seq(of: Schema)
    | Tuple(fields: List<Schema>)
    | Enum(variants: seq<Schema>)

  datatype Value =
    | Raw(raw: seq<byte>)
    | Truth(flag: bool)
    | Scalar(scalar: seq<byte>)
    | Words(text: seq<byte>)
    | Buffer(raw: seq<byte>)
    | Nothing
    | Absent
    | Just(value: Value)
    | Items(items: List<Value>)
    | Fields(items: List<Value>)
    | Variant(index: nat, value: Value)

  predicate IsScalar(c: seq<byte>) { c != [] && ScalarWidth(c) == |c| }

  /** The value has the schema's shape, with lengths the layout can express. */
  predicate Fits(s: Schema, v: Value)
    decreases v
  {
    match s
    case Fixed(width) => v.Raw? && |v.raw| == width
    case Flag => v.Truth?
    case Char => v.Scalar? && IsScalar(v.scalar)
    case Str => v.Words? && Utf8(v.text) && |v.text| < U64_LIMIT
    case Blob => v.Buffer? && |v.raw| < U64_LIMIT
    case Unit => v.Nothing?
    case Optional(of) => v.Absent? || (v.Just? && Fits(of, v.value))
    case Seq(of) => v.Items? && Length(v.items) < U64_LIMIT && EachFits(of, v.items)
    case Tuple(fields) => v.Fields? && FieldsFit(fields, v.items)
    case Enum(variants) => v.Variant? && v.index < |variants| && v.index < U32_LIMIT && Fits(variants[v.index], v.value)
  }

  predicate EachFits(of: Schema, vs: List<Value>)
    decreases vs
  {
    vs.Nil? || (Fits(of, vs.head) && EachFits(of, vs.tail))
  }

  predicate FieldsFit(fields: List<Schema>, vs: List<Value>)
    decreases vs
  {
    match (fields, vs)
    case (Nil, Nil) => true
    case (Cons(s, ss), Cons(v, rest)) => Fits(s, v) && FieldsFit(ss, rest)
    case _ => false
  }

  // ----- layout -----

  function Layout(v: Value): seq<byte> {
    match v
    case Raw(raw) => raw
    case Truth(flag) => [if flag then 1 else 0]
    case Scalar(scalar) => scalar
    case Words(text) => Le(|text|, 8) + text
    case Buffer(raw) => Le(|raw|, 8) + raw
    case Nothing => []
    case Absent => [0]
    case Just(value) => [1] + Layout(value)
    case Items(items) => Le(Length(items), 8) + Layouts(items)
    case Fields(items) => Layouts(items)
    case Variant(index, value) => Le(index, 4) + Layout(value)
  }

  function Layouts(vs: List<Value>): seq<byte> {
    if vs.Nil? then [] else Layout(vs.head) + Layouts(vs.tail)
  }

  // ----- decoding: a value and the input left after it -----

  datatype Read<+T> = Read(value: T, rest: seq<byte>)

  type Decoding<+T> = Result<Read<T>, LegacyError>

  function Take(input: seq<byte>, len: nat): Decoding<seq<byte>> {
    if len > |input| then Err(Truncated) else Ok(Read(input[..len], input[len..]))
  }

  /** An eight-byte length, refused past the end of the input. */
  function TakeLen(input: seq<byte>): Decoding<nat> {
    var raw :- Take(input, 8);
    var len := FromLe(raw.value);
    if len <= |raw.rest| then Ok(Read(len, raw.rest)) else Err(Truncated)
  }

  function TakeBytes(input: seq<byte>): Decoding<seq<byte>> {
    var len :- TakeLen(input);
    Take(len.rest, len.value)
  }

  function TakeStr(input: seq<byte>): Decoding<seq<byte>> {
    var raw :- TakeBytes(input);
    if Utf8(raw.value) then Ok(raw) else Err(Invalid)
  }

  function LeadWidth(lead: byte): nat {
    if lead < 0x80 then 1
    else if 0xC0 <= lead < 0xE0 then 2
    else if 0xE0 <= lead < 0xF0 then 3
    else if 0xF0 <= lead < 0xF8 then 4
    else 0
  }

  function TakeChar(input: seq<byte>): Decoding<seq<byte>> {
    if input == [] then Err(Truncated) else
    var width := LeadWidth(input[0]);
    if width == 0 then Err(Invalid) else
    var encoded :- Take(input, width);
    if Utf8(encoded.value) then Ok(encoded) else Err(Invalid)
  }

  function TakeTag(input: seq<byte>): Decoding<bool> {
    var raw :- Take(input, 1);
    if raw.value[0] == 0 then Ok(Read(false, raw.rest))
    else if raw.value[0] == 1 then Ok(Read(true, raw.rest))
    else Err(Invalid)
  }

  function TakeIndex(input: seq<byte>): Decoding<nat> {
    var raw :- Take(input, 4);
    Ok(Read(FromLe(raw.value), raw.rest))
  }

  function Decode(s: Schema, input: seq<byte>): Decoding<Value>
    decreases s, 0, 0
  {
    match s
    case Fixed(width) => var r :- Take(input, width); Ok(Read(Raw(r.value), r.rest))
    case Flag => var r :- TakeTag(input); Ok(Read(Truth(r.value), r.rest))
    case Char => var r :- TakeChar(input); Ok(Read(Scalar(r.value), r.rest))
    case Str => var r :- TakeStr(input); Ok(Read(Words(r.value), r.rest))
    case Blob => var r :- TakeBytes(input); Ok(Read(Buffer(r.value), r.rest))
    case Unit => Ok(Read(Nothing, input))
    case Optional(of) =>
      var tag :- TakeTag(input);
      if !tag.value then Ok(Read(Absent, tag.rest)) else
      var r :- Decode(of, tag.rest);
      Ok(Read(Just(r.value), r.rest))
    case Seq(of) =>
      var n :- TakeLen(input);
      var r :- DecodeEach(of, n.value, n.rest);
      Ok(Read(Items(r.value), r.rest))
    case Tuple(fields) => var r :- DecodeFields(fields, input); Ok(Read(Fields(r.value), r.rest))
    case Enum(variants) =>
      var i :- TakeIndex(input);
      if i.value >= |variants| then Err(Invalid) else
      var r :- Decode(variants[i.value], i.rest);
      Ok(Read(Variant(i.value, r.value), r.rest))
  }

  function DecodeEach(of: Schema, n: nat, input: seq<byte>): Decoding<List<Value>>
    decreases of, 1, n
  {
    if n == 0 then Ok(Read(Nil, input)) else
    var head :- Decode(of, input);
    var tail :- DecodeEach(of, n - 1, head.rest);
    Ok(Read(Cons(head.value, tail.value), tail.rest))
  }

  function DecodeFields(fields: List<Schema>, input: seq<byte>): Decoding<List<Value>>
    decreases fields, 1, 0
  {
    if fields.Nil? then Ok(Read(Nil, input)) else
    var head :- Decode(fields.head, input);
    var tail :- DecodeFields(fields.tail, head.rest);
    Ok(Read(Cons(head.value, tail.value), tail.rest))
  }

  /** One value and nothing after it. */
  function FromSlice(s: Schema, bytes: seq<byte>): Result<Value, LegacyError> {
    var r :- Decode(s, bytes);
    if r.rest == [] then Ok(r.value) else Err(Trailing)
  }

  // ----- round trip -----

  /** Every sequence in the value has no more elements than bytes that follow its length,
      `tail` of them beyond the value itself. */
  predicate Room(v: Value, tail: nat) {
    match v
    case Just(value) => Room(value, tail)
    case Variant(_, value) => Room(value, tail)
    case Fields(items) => RoomEach(items, tail)
    case Items(items) => Length(items) <= |Layouts(items)| + tail && RoomEach(items, tail)
    case _ => true
  }

  predicate RoomEach(vs: List<Value>, tail: nat) {
    vs.Nil? || (Room(vs.head, |Layouts(vs.tail)| + tail) && RoomEach(vs.tail, tail))
  }

  lemma TakeFirst(a: seq<byte>, q: seq<byte>)
    ensures Take(a + q, |a|) == Ok(Read(a, q))
  {
    assert (a + q)[..|a|] == a && (a + q)[|a|..] == q;
  }

  lemma TakeLenIs(n: nat, rest: seq<byte>)
    requires n < U64_LIMIT
    ensures TakeLen(Le(n, 8) + rest) == if n <= |rest| then Ok(Read(n, rest)) else Err(Truncated)
  {
    hide Le, FromLe;
    Widths();
    LeRoundTrip(n, 8);
    TakeFirst(Le(n, 8), rest);
  }

  lemma TakeBytesIs(raw: seq<byte>, q: seq<byte>)
    requires |raw| < U64_LIMIT
    ensures TakeBytes(Le(|raw|, 8) + raw + q) == Ok(Read(raw, q))
  {
    hide Le, TakeLen, Take;
    assert Le(|raw|, 8) + raw + q == Le(|raw|, 8) + (raw + q);
    TakeLenIs(|raw|, raw + q);
    TakeFirst(raw, q);
  }

  lemma TakeCharIs(c: seq<byte>, q: seq<byte>)
    requires IsScalar(c)
    ensures TakeChar(c + q) == Ok(Read(c, q))
  {
    assert (c + q)[0] == c[0] && LeadWidth(c[0]) == |c|;
    TakeFirst(c, q);
    assert c[|c|..] == [] && Utf8([]) && Utf8(c);
  }

  lemma TakeIndexIs(i: nat, q: seq<byte>)
    requires i < U32_LIMIT
    ensures TakeIndex(Le(i, 4) + q) == Ok(Read(i, q))
  {
    hide Le, FromLe;
    Widths();
    LeRoundTrip(i, 4);
    TakeFirst(Le(i, 4), q);
  }

  lemma TakeTagIs(flag: bool, q: seq<byte>)
    ensures TakeTag([if flag then 1 else 0] + q) == Ok(Read(flag, q))
  {
    TakeFirst([if flag then 1 else 0], q);
  }

  /** What decoding must make of a layout with bytes `q` after it. */
  function ReadBack<T>(v: T, room: bool, q: seq<byte>): Decoding<T> { if room then Ok(Read(v, q)) else Err(Truncated) }

  /** A schema with no part of its own. */
  predicate Leaf(s: Schema) { s.Fixed? || s.Flag? || s.Char? || s.Str? || s.Blob? || s.Unit? }

  lemma DecodeLeafLayout(s: Schema, v: Value, q: seq<byte>)
    requires Leaf(s) && Fits(s, v)
    ensures Decode(s, Layout(v) + q) == ReadBack(v, Room(v, |q|), q)
  {
    hide Le, FromLe, Utf8, ScalarWidth, TakeLen, TakeBytes, TakeChar, TakeTag, TakeIndex, IsScalar;
    match s {
      case Fixed(_) => TakeFirst(v.raw, q);
      case Flag => TakeTagIs(v.flag, q);
      case Char => TakeCharIs(v.scalar, q);
      case Str => TakeBytesIs(v.text, q);
      case Blob => TakeBytesIs(v.raw, q);
      case Unit => assert [] + q == q;
    }
  }

  lemma DecodeTagged(of: Schema, input: seq<byte>)
    ensures Decode(Optional(of), [1] + input) ==
            match Decode(of, input) case Ok(r) => Ok(Read(Just(r.value), r.rest)) case Err(e) => Err(e)
  {
    TakeTagIs(true, input);
    hide TakeTag, Utf8;
  }

  lemma DecodeOptionalLayout(of: Schema, v: Value, q: seq<byte>)
    requires Decode(of, Layout(v) + q) == ReadBack(v, Room(v, |q|), q)
    ensures Decode(Optional(of), Layout(Just(v)) + q) == ReadBack(Just(v), Room(Just(v), |q|), q)
  {
    hide Decode, Utf8;
    DecodeTagged(of, Layout(v) + q);
    assert Layout(Just(v)) + q == [1] + (Layout(v) + q);
  }

  lemma DecodeAbsentLayout(of: Schema, q: seq<byte>)
    ensures Decode(Optional(of), Layout(Absent) + q) == ReadBack(Absent, Room(Absent, |q|), q)
  {
    hide TakeTag, Utf8;
    TakeTagIs(false, q);
  }

  lemma DecodeSeqLayout(of: Schema, vs: List<Value>, q: seq<byte>)
    requires Length(vs) < U64_LIMIT && DecodeEach(of, Length(vs), Layouts(vs) + q) == ReadBack(vs, RoomEach(vs, |q|), q)
    ensures Decode(Seq(of), Layout(Items(vs)) + q) == ReadBack(Items(vs), Room(Items(vs), |q|), q)
  {
    hide Le, TakeLen, DecodeEach, Layouts, RoomEach, Length, Utf8;
    assert Layout(Items(vs)) + q == Le(Length(vs), 8) + (Layouts(vs) + q);
    TakeLenIs(Length(vs), Layouts(vs) + q);
  }

  lemma DecodeTupleLayout(fields: List<Schema>, vs: List<Value>, q: seq<byte>)
    requires DecodeFields(fields, Layouts(vs) + q) == ReadBack(vs, RoomEach(vs, |q|), q)
    ensures Decode(Tuple(fields), Layout(Fields(vs)) + q) == ReadBack(Fields(vs), Room(Fields(vs), |q|), q)
  {
    hide DecodeFields, Layouts, RoomEach, Utf8;
  }

  lemma DecodeEnumLayout(variants: seq<Schema>, i: nat, v: Value, q: seq<byte>)
    requires i < |variants| && i < U32_LIMIT && Decode(variants[i], Layout(v) + q) == ReadBack(v, Room(v, |q|), q)
    ensures Decode(Enum(variants), Layout(Variant(i, v)) + q) == ReadBack(Variant(i, v), Room(Variant(i, v), |q|), q)
  {
    hide Le, TakeIndex, Utf8;
    assert Layout(Variant(i, v)) + q == Le(i, 4) + (Layout(v) + q);
    TakeIndexIs(i, Layout(v) + q);
  }

  /** Decoding a layout gives back its value and consumes exactly its bytes, whenever every
      sequence has room; otherwise it refuses. */
  lemma {:induction false} DecodeLayout(s: Schema, v: Value, q: seq<byte>)
    requires Fits(s, v)
    ensures Decode(s, Layout(v) + q) == ReadBack(v, Room(v, |q|), q)
    decreases v
  {
    hide Decode, DecodeEach, DecodeFields, Layout, Layouts, Room, RoomEach, ReadBack, Length, IsScalar, Utf8;
    match s {
      case Optional(of) =>
        if v.Just? {
          DecodeLayout(of, v.value, q);
          DecodeOptionalLayout(of, v.value, q);
        } else {
          DecodeAbsentLayout(of, q);
        }
      case Seq(of) =>
        DecodeLayouts(of, v.items, q);
        DecodeSeqLayout(of, v.items, q);
      case Tuple(fields) =>
        DecodeFieldLayouts(fields, v.items, q);
        DecodeTupleLayout(fields, v.items, q);
      case Enum(variants) =>
        DecodeLayout(variants[v.index], v.value, q);
        DecodeEnumLayout(variants, v.index, v.value, q);
      case _ =>
        DecodeLeafLayout(s, v, q);
    }
  }

  lemma {:induction false} DecodeLayouts(of: Schema, vs: List<Value>, q: seq<byte>)
    requires EachFits(of, vs)
    ensures DecodeEach(of, Length(vs), Layouts(vs) + q) == ReadBack(vs, RoomEach(vs, |q|), q)
    decreases vs
  {
    hide Decode, Fits, Room, Layout;
    if vs.Nil? {
      assert [] + q == q;
    } else {
      assert Layouts(vs) + q == Layout(vs.head) + (Layouts(vs.tail) + q);
      DecodeLayout(of, vs.head, Layouts(vs.tail) + q);
      DecodeLayouts(of, vs.tail, q);
    }
  }

  lemma {:induction false} DecodeFieldLayouts(fields: List<Schema>, vs: List<Value>, q: seq<byte>)
    requires FieldsFit(fields, vs)
    ensures DecodeFields(fields, Layouts(vs) + q) == ReadBack(vs, RoomEach(vs, |q|), q)
    decreases vs
  {
    hide Decode, Fits, Room, Layout;
    if vs.Nil? {
      assert [] + q == q;
    } else {
      assert Layouts(vs) + q == Layout(vs.head) + (Layouts(vs.tail) + q);
      DecodeLayout(fields.head, vs.head, Layouts(vs.tail) + q);
      DecodeFieldLayouts(fields.tail, vs.tail, q);
    }
  }

  // ----- which types always have room -----

  function MinSize(s: Schema): nat {
    match s
    case Fixed(width) => width
    case Unit => 0
    case Str => 8
    case Blob => 8
    case Seq(_) => 8
    case Enum(_) => 4
    case Tuple(fields) => MinSizes(fields)
    case _ => 1
  }

  function MinSizes(fields: List<Schema>): nat {
    if fields.Nil? then 0 else MinSize(fields.head) + MinSizes(fields.tail)
  }

  /** Sequence elements occupy at least one byte, at every depth. */
  predicate Solid(s: Schema) {
    match s
    case Optional(of) => Solid(of)
    case Seq(of) => Solid(of) && MinSize(of) > 0
    case Tuple(fields) => AllSolid(fields)
    case Enum(variants) => forall i :: 0 <= i < |variants| ==> Solid(variants[i])
    case _ => true
  }

  predicate AllSolid(fields: List<Schema>) { fields.Nil? || (Solid(fields.head) && AllSolid(fields.tail)) }

  lemma {:induction false} LayoutAtLeast(s: Schema, v: Value)
    requires Fits(s, v)
    ensures |Layout(v)| >= MinSize(s)
    decreases v, 0
  {
    hide Utf8, ScalarWidth;
    if s.Tuple? { LayoutsAtLeast(s.fields, v.items); }
    if s.Char? { assert v.scalar != []; }
  }

  lemma {:induction false} LayoutsAtLeast(fields: List<Schema>, vs: List<Value>)
    requires FieldsFit(fields, vs)
    ensures |Layouts(vs)| >= MinSizes(fields)
    decreases vs, 1
  {
    hide Fits, Layout, MinSize;
    if vs.Cons? {
      LayoutAtLeast(fields.head, vs.head);
      LayoutsAtLeast(fields.tail, vs.tail);
    }
  }

  lemma {:induction false} ElementsAtLeast(of: Schema, vs: List<Value>)
    requires EachFits(of, vs) && MinSize(of) > 0
    ensures |Layouts(vs)| >= Length(vs)
  {
    hide Fits, Layout, MinSize;
    if vs.Cons? {
      LayoutAtLeast(of, vs.head);
      ElementsAtLeast(of, vs.tail);
    }
  }

  lemma {:induction false} SolidHasRoom(s: Schema, v: Value, tail: nat)
    requires Fits(s, v) && Solid(s)
    ensures Room(v, tail)
    decreases v, 0
  {
    hide Utf8, ScalarWidth, Layout, Layouts, MinSize;
    match s {
      case Optional(of) => if v.Just? { SolidHasRoom(of, v.value, tail); }
      case Seq(of) =>
        ElementsAtLeast(of, v.items);
        SolidElementsRoom(of, v.items, tail);
      case Tuple(fields) => SolidFieldsRoom(fields, v.items, tail);
      case Enum(variants) => SolidHasRoom(variants[v.index], v.value, tail);
      case _ =>
    }
  }

  lemma {:induction false} SolidElementsRoom(of: Schema, vs: List<Value>, tail: nat)
    requires EachFits(of, vs) && Solid(of)
    ensures RoomEach(vs, tail)
    decreases vs, 1
  {
    hide Fits, Layout, Layouts, Solid, Room;
    if vs.Cons? {
      SolidHasRoom(of, vs.head, |Layouts(vs.tail)| + tail);
      SolidElementsRoom(of, vs.tail, tail);
    }
  }

  lemma {:induction false} SolidFieldsRoom(fields: List<Schema>, vs: List<Value>, tail: nat)
    requires FieldsFit(fields, vs) && AllSolid(fields)
    ensures RoomEach(vs, tail)
    decreases vs, 1
  {
    hide Fits, Layout, Layouts, Solid, Room;
    if vs.Cons? {
      SolidHasRoom(fields.head, vs.head, |Layouts(vs.tail)| + tail);
      SolidFieldsRoom(fields.tail, vs.tail, tail);
    }
  }

  // ----- more input reads the same value -----

  lemma TakeStable(input: seq<byte>, len: nat, q: seq<byte>)
    requires Take(input, len).Ok?
    ensures Take(input + q, len) == Ok(Read(Take(input, len).value.value, Take(input, len).value.rest + q))
  {
    assert (input + q)[..len] == input[..len] && (input + q)[len..] == input[len..] + q;
  }

  lemma PartsStable(input: seq<byte>, q: seq<byte>)
    ensures TakeLen(input).Ok? ==>
        TakeLen(input + q) == Ok(Read(TakeLen(input).value.value, TakeLen(input).value.rest + q))
    ensures TakeBytes(input).Ok? ==>
        TakeBytes(input + q) == Ok(Read(TakeBytes(input).value.value, TakeBytes(input).value.rest + q))
    ensures TakeTag(input).Ok? ==>
        TakeTag(input + q) == Ok(Read(TakeTag(input).value.value, TakeTag(input).value.rest + q))
    ensures TakeIndex(input).Ok? ==>
        TakeIndex(input + q) == Ok(Read(TakeIndex(input).value.value, TakeIndex(input).value.rest + q))
    ensures TakeChar(input).Ok? ==>
        TakeChar(input + q) == Ok(Read(TakeChar(input).value.value, TakeChar(input).value.rest + q))
  {
    hide FromLe, Utf8, Take;
    if Take(input, 8).Ok? { TakeStable(input, 8, q); }
    if Take(input, 1).Ok? { TakeStable(input, 1, q); }
    if Take(input, 4).Ok? { TakeStable(input, 4, q); }
    if TakeLen(input).Ok? {
      var len := TakeLen(input).value;
      if Take(len.rest, len.value).Ok? { TakeStable(len.rest, len.value, q); }
    }
    if TakeChar(input).Ok? {
      assert (input + q)[0] == input[0];
      TakeStable(input, LeadWidth(input[0]), q);
    }
  }

  lemma {:induction false} DecodeStable(s: Schema, input: seq<byte>, q: seq<byte>)
    requires Decode(s, input).Ok?
    ensures Decode(s, input + q) == Ok(Read(Decode(s, input).value.value, Decode(s, input).value.rest + q))
    decreases s, 0, 0
  {
    hide FromLe, Utf8, TakeLen, TakeBytes, TakeTag, TakeIndex, TakeChar, Take;
    PartsStable(input, q);
    match s {
      case Fixed(width) => TakeStable(input, width, q);
      case Optional(of) =>
        var tag := TakeTag(input).value;
        if tag.value { DecodeStable(of, tag.rest, q); }
      case Seq(of) =>
        var n := TakeLen(input).value;
        EachStable(of, n.value, n.rest, q);
      case Tuple(fields) => FieldsStable(fields, input, q);
      case Enum(variants) =>
        var i := TakeIndex(input).value;
        DecodeStable(variants[i.value], i.rest, q);
      case _ =>
    }
  }

  lemma {:induction false} EachStable(of: Schema, n: nat, input: seq<byte>, q: seq<byte>)
    requires DecodeEach(of, n, input).Ok?
    ensures DecodeEach(of, n, input + q) == Ok(Read(DecodeEach(of, n, input).value.value,
                                                    DecodeEach(of, n, input).value.rest + q))
    decreases of, 1, n
  {
    hide Decode;
    if n > 0 {
      DecodeStable(of, input, q);
      EachStable(of, n - 1, Decode(of, input).value.rest, q);
    }
  }

  lemma {:induction false} FieldsStable(fields: List<Schema>, input: seq<byte>, q: seq<byte>)
    requires DecodeFields(fields, input).Ok?
    ensures DecodeFields(fields, input + q) ==
        Ok(Read(DecodeFields(fields, input).value.value, DecodeFields(fields, input).value.rest + q))
    decreases fields, 1, 0
  {
    hide Decode;
    if fields.Cons? {
      DecodeStable(fields.head, input, q);
      FieldsStable(fields.tail, Decode(fields.head, input).value.rest, q);
    }
  }

  // ----- the promises -----

  /** Stored bytes of any value stay readable exactly when its sequences have room, and then
      as that value; one more byte, or any fewer, and they are refused. */
  lemma LegacyRoundTrip(s: Schema, v: Value, cut: nat, q: seq<byte>)
    requires Fits(s, v)
    ensures FromSlice(s, Layout(v)) == if Room(v, 0) then Ok(v) else Err(Truncated)
    ensures Room(v, 0) && q != [] ==> FromSlice(s, Layout(v) + q) == Err(Trailing)
    ensures Room(v, 0) && cut < |Layout(v)| ==> FromSlice(s, Layout(v)[..cut]).Err?
  {
    hide Decode, Fits, Room, Layout;
    assert Layout(v) + [] == Layout(v);
    DecodeLayout(s, v, []);
    if Room(v, 0) {
      DecodeStable(s, Layout(v), q);
      assert [] + q == q;
      if cut < |Layout(v)| {
        assert Layout(v)[..cut] + Layout(v)[cut..] == Layout(v) && [] + Layout(v)[cut..] == Layout(v)[cut..];
        if Decode(s, Layout(v)[..cut]).Ok? { DecodeStable(s, Layout(v)[..cut], Layout(v)[cut..]); }
      }
    }
  }

  /** Every type whose sequence elements occupy at least a byte is readable outright. */
  lemma SolidRoundTrip(s: Schema, v: Value)
    requires Fits(s, v) && Solid(s)
    ensures FromSlice(s, Layout(v)) == Ok(v)
  {
    hide Decode, Fits, Room, Layout, Solid;
    SolidHasRoom(s, v, 0);
    LegacyRoundTrip(s, v, 0, []);
  }

  /** Elements of no bytes have no room: even one is taken for truncation. */
  lemma EmptyElementsRefused(n: nat, units: List<Value>)
    requires 0 < n == Length(units) < U64_LIMIT && EachFits(Unit, units)
    ensures FromSlice(Seq(Unit), Layout(Items(units))) == Err(Truncated)
  {
    UnitsAreEmpty(units);
    LegacyRoundTrip(Seq(Unit), Items(units), 0, []);
  }

  lemma {:induction false} UnitsAreEmpty(units: List<Value>)
    requires EachFits(Unit, units)
    ensures Layouts(units) == []
  {
    if units.Cons? { UnitsAreEmpty(units.tail); }
  }
}
