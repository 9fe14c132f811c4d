/** Portable LIST continuation tokens (src/list_token.rs): a payload in the current or the
    legacy layout, framed by a checksum and written in base64url (section 5 of RFC 4648). */
module Tokens {
  import opened Base
  import L = Legacy

  type Bytes = seq<byte>

  // ----- base64url without padding -----

  predicate Sextet(n: int) { 0 <= n < 64 }

  function Symbol(n: nat): byte
    requires Sextet(n)
  {
    if n < 26 then 65 + n
    else if n < 52 then 97 + (n - 26)
    else if n < 62 then 48 + (n - 52)
    else if n == 62 then 45
    else 95
  }

  function SextetOf(c: byte): (r: Option<nat>)
    ensures r.Some? ==> Sextet(r.value) && Symbol(r.value) == c
  {
    if 65 <= c <= 90 then Some(c - 65)
    else if 97 <= c <= 122 then Some(c - 97 + 26)
    else if 48 <= c <= 57 then Some(c - 48 + 52)
    else if c == 45 then Some(62)
    else if c == 95 then Some(63)
    else None
  }

  lemma SymbolRoundTrip(n: nat)
    requires Sextet(n)
    ensures SextetOf(Symbol(n)) == Some(n)
  {}

  function Encode64(s: Bytes): Bytes {
    if s == [] then []
    else if |s| == 1 then [Symbol(s[0] / 4), Symbol(s[0] % 4 * 16)]
    else if |s| == 2 then [Symbol(s[0] / 4), Symbol(s[0] % 4 * 16 + s[1] / 16), Symbol(s[1] % 16 * 4)]
    else
      [Symbol(s[0] / 4), Symbol(s[0] % 4 * 16 + s[1] / 16), Symbol(s[1] % 16 * 4 + s[2] / 64), Symbol(s[2] % 64)]
      + Encode64(s[3..])
  }

  predicate AllSextets(t: Bytes) { forall i :: 0 <= i < |t| ==> SextetOf(t[i]).Some? }

  /** Stray bits past the last byte are refused, so a byte string has one encoding. */
  function Decode64(t: Bytes): Option<Bytes> {
    if t == [] then Some([])
    else if |t| == 1 then None
    else if |t| < 4 then
      if !AllSextets(t) then None else
      var a := SextetOf(t[0]).value;
      var b := SextetOf(t[1]).value;
      if |t| == 2 then (if b % 16 == 0 then Some([a * 4 + b / 16]) else None) else
      var c := SextetOf(t[2]).value;
      if c % 4 == 0 then Some([a * 4 + b / 16, b % 16 * 16 + c / 4]) else None
    else
      if !AllSextets(t[..4]) then None else
      var a := SextetOf(t[0]).value;
      var b := SextetOf(t[1]).value;
      var c := SextetOf(t[2]).value;
      var d := SextetOf(t[3]).value;
      match Decode64(t[4..])
      case None => None
      case Some(rest) => Some([a * 4 + b / 16, b % 16 * 16 + c / 4, c % 4 * 64 + d] + rest)
  }

  lemma GroupRoundTrip(x: byte, y: byte, z: byte)
    ensures var (a, b, c, d) := (x / 4, x % 4 * 16 + y / 16, y % 16 * 4 + z / 64, z % 64);
      Sextet(a) && Sextet(b) && Sextet(c) && Sextet(d) && a * 4 + b / 16 == x && b % 16 * 16 + c / 4 == y
        && c % 4 * 64 + d == z
  {}

  lemma OneRoundTrip(x: byte)
    ensures Decode64(Encode64([x])) == Some([x])
  {
    hide SextetOf, Symbol;
    GroupRoundTrip(x, 0, 0);
    SymbolRoundTrip(x / 4);
    SymbolRoundTrip(x % 4 * 16);
  }

  lemma TwoRoundTrip(x: byte, y: byte)
    ensures Decode64(Encode64([x, y])) == Some([x, y])
  {
    hide SextetOf, Symbol;
    GroupRoundTrip(x, y, 0);
    SymbolRoundTrip(x / 4);
    SymbolRoundTrip(x % 4 * 16 + y / 16);
    SymbolRoundTrip(y % 16 * 4);
  }

  lemma {:induction false} Base64RoundTrip(s: Bytes)
    ensures Decode64(Encode64(s)) == Some(s)
  {
    hide SextetOf, Symbol;
    if |s| == 1 {
      OneRoundTrip(s[0]);
      assert s == [s[0]];
    } else if |s| == 2 {
      TwoRoundTrip(s[0], s[1]);
      assert s == [s[0], s[1]];
    } else if |s| > 2 {
      var t := Encode64(s);
      GroupRoundTrip(s[0], s[1], s[2]);
      SymbolRoundTrip(s[0] / 4);
      SymbolRoundTrip(s[0] % 4 * 16 + s[1] / 16);
      SymbolRoundTrip(s[1] % 16 * 4 + s[2] / 64);
      SymbolRoundTrip(s[2] % 64);
      Base64RoundTrip(s[3..]);
      assert t[4..] == Encode64(s[3..]);
      assert s == [s[0], s[1], s[2]] + s[3..];
    }
  }

  lemma GroupCanonical(a: nat, b: nat, c: nat, d: nat)
    requires Sextet(a) && Sextet(b) && Sextet(c) && Sextet(d)
    ensures var (x, y, z) := (a * 4 + b / 16, b % 16 * 16 + c / 4, c % 4 * 64 + d);
      && x < 256 && y < 256 && z < 256
      && x / 4 == a && x % 4 * 16 + y / 16 == b && y % 16 * 4 + z / 64 == c && z % 64 == d
  {}

  lemma TailCanonical(t: Bytes)
    requires 2 <= |t| < 4 && Decode64(t).Some?
    ensures Encode64(Decode64(t).value) == t
  {
    hide SextetOf, Symbol;
    var a := SextetOf(t[0]).value;
    var b := SextetOf(t[1]).value;
    var c := if |t| > 2 then SextetOf(t[2]).value else 0;
    GroupCanonical(a, b, c, 0);
  }

  lemma HeadCanonical(t: Bytes, rest: Bytes)
    requires |t| >= 4 && AllSextets(t[..4]) && Decode64(t[4..]) == Some(rest)
    ensures Decode64(t).Some? && |Decode64(t).value| >= 3 && Decode64(t).value[3..] == rest
    ensures Encode64(Decode64(t).value) == t[..4] + Encode64(rest)
  {
    hide SextetOf, Symbol;
    assert t[..4] == [t[0], t[1], t[2], t[3]];
    assert t[..4][0] == t[0] && t[..4][1] == t[1] && t[..4][2] == t[2] && t[..4][3] == t[3];
    GroupCanonical(SextetOf(t[0]).value, SextetOf(t[1]).value, SextetOf(t[2]).value, SextetOf(t[3]).value);
  }

  /** Only its own encoding decodes to a byte string. */
  lemma {:induction false} Base64Canonical(t: Bytes)
    requires Decode64(t).Some?
    ensures Encode64(Decode64(t).value) == t
  {
    hide SextetOf, Symbol, Encode64;
    if t == [] {
      assert Encode64([]) == [] by { NothingEncodes(); }
    } else if |t| < 4 {
      TailCanonical(t);
    } else {
      Base64Canonical(t[4..]);
      HeadCanonical(t, Decode64(t[4..]).value);
      assert t == t[..4] + t[4..];
    }
  }

  lemma NothingEncodes()
    ensures Encode64([]) == []
  {}

  // ----- the payload in the current layout -----

  datatype Payload = Payload(bucket: Text, prefix: Option<Text>, delimiter: Option<Text>, cursor: Text)

  function Varint(n: nat): Bytes { if n < 128 then [n] else [n % 128 + 128] + Varint(n / 128) }

  datatype Parsed<+T> = Parsed(value: T, rest: Bytes)

  type Parse<+T> = Option<Parsed<T>>

  /** Seven bits a byte, least significant first, in at most `left` bytes; the tenth byte of
      a 64-bit length carries one bit. */
  function ReadVarint(s: Bytes, left: nat): Parse<nat> {
    if s == [] || left == 0 then None
    else if s[0] < 128 then (if left == 1 && s[0] > 1 then None else Some(Parsed(s[0], s[1..])))
    else match ReadVarint(s[1..], left - 1)
      case None => None
      case Some(p) => Some(Parsed(s[0] - 128 + 128 * p.value, p.rest))
  }

  function StrLayout(t: Bytes): Bytes { Varint(|t|) + t }

  function ReadStr(s: Bytes): Parse<Text> {
    match ReadVarint(s, 10)
    case None => None
    case Some(n) =>
      if n.value > |n.rest| || !Utf8(n.rest[..n.value]) then None
      else Some(Parsed(n.rest[..n.value], n.rest[n.value..]))
  }

  function OptionLayout(t: Option<Text>): Bytes { if t.None? then [0] else [1] + StrLayout(t.value) }

  function ReadOption(s: Bytes): Parse<Option<Text>> {
    if s == [] || s[0] > 1 then None
    else if s[0] == 0 then Some(Parsed(None, s[1..]))
    else match ReadStr(s[1..])
      case None => None
      case Some(p) => Some(Parsed(Some(p.value), p.rest))
  }

  function PayloadLayout(p: Payload): Bytes {
    StrLayout(p.bucket) + (OptionLayout(p.prefix) + (OptionLayout(p.delimiter) + StrLayout(p.cursor)))
  }

  /** Exactly one payload: trailing bytes are refused. */
  function ReadPayload(s: Bytes): Option<Payload> {
    match ReadStr(s) case None => None case Some(bucket) =>
    match ReadOption(bucket.rest) case None => None case Some(prefix) =>
    match ReadOption(prefix.rest) case None => None case Some(delimiter) =>
    match ReadStr(delimiter.rest) case None => None case Some(cursor) =>
    if cursor.rest == [] then Some(Payload(bucket.value, prefix.value, delimiter.value, cursor.value)) else None
  }

  /** Lengths `left` varint bytes can carry. */
  function Reach(left: nat): nat { if left == 0 then 0 else if left == 1 then 2 else 128 * Reach(left - 1) }

  lemma {:induction false} VarintRoundTrip(n: nat, left: nat, q: Bytes)
    requires n < Reach(left)
    ensures ReadVarint(Varint(n) + q, left) == Some(Parsed(n, q))
  {
    var s := Varint(n) + q;
    if n < 128 {
      assert s[1..] == q;
    } else {
      assert left > 1;
      VarintRoundTrip(n / 128, left - 1, q);
      assert s[1..] == Varint(n / 128) + q;
    }
  }

  lemma Reaches()
    ensures Reach(10) == U64_LIMIT
  {
    assert Reach(2) == 256 && Reach(3) == 0x8000 && Reach(4) == 0x40_0000 && Reach(5) == 0x2000_0000;
    assert Reach(6) == 0x10_0000_0000 && Reach(7) == 0x800_0000_0000 && Reach(8) == 0x4_0000_0000_0000
      && Reach(9) == 0x200_0000_0000_0000;
  }

  predicate Lengthy(t: Text) { |t| < U64_LIMIT }

  predicate Expressible(p: Payload) {
    Lengthy(p.bucket) && (p.prefix.Some? ==> Lengthy(p.prefix.value))
      && (p.delimiter.Some? ==> Lengthy(p.delimiter.value)) && Lengthy(p.cursor)
  }

  lemma StrRoundTrip(t: Text, q: Bytes)
    requires Lengthy(t)
    ensures ReadStr(StrLayout(t) + q) == Some(Parsed(t, q))
  {
    hide Varint, ReadVarint, Reach, Utf8;
    Reaches();
    VarintRoundTrip(|t|, 10, t + q);
    assert StrLayout(t) + q == Varint(|t|) + (t + q);
    assert (t + q)[..|t|] == t && (t + q)[|t|..] == q;
  }

  lemma OptionRoundTrip(t: Option<Text>, q: Bytes)
    requires t.Some? ==> Lengthy(t.value)
    ensures ReadOption(OptionLayout(t) + q) == Some(Parsed(t, q))
  {
    hide ReadStr, StrLayout, Utf8;
    var s := OptionLayout(t) + q;
    if t.Some? {
      assert s[1..] == StrLayout(t.value) + q;
      StrRoundTrip(t.value, q);
    } else {
      assert s[1..] == q;
    }
  }

  lemma PayloadRoundTrip(p: Payload)
    requires Expressible(p)
    ensures ReadPayload(PayloadLayout(p)) == Some(p)
  {
    hide ReadStr, ReadOption, StrLayout, OptionLayout, Utf8;
    var last := StrLayout(p.cursor);
    assert last + [] == last;
    StrRoundTrip(p.cursor, []);
    OptionRoundTrip(p.delimiter, last);
    OptionRoundTrip(p.prefix, OptionLayout(p.delimiter) + last);
    StrRoundTrip(p.bucket, OptionLayout(p.prefix) + (OptionLayout(p.delimiter) + last));
  }

  // ----- the payload in the legacy layout -----

  const PAYLOAD_SCHEMA: L.Schema :=
    L.Tuple(L.Cons(L.Str, L.Cons(L.Optional(L.Str), L.Cons(L.Optional(L.Str), L.Cons(L.Str, L.Nil)))))

  function LegacyOption(t: Option<Text>): L.Value { if t.None? then L.Absent else L.Just(L.Words(t.value)) }

  function LegacyValue(p: Payload): L.Value {
    L.Fields(L.Cons(L.Words(p.bucket), L.Cons(LegacyOption(p.prefix),
                                              L.Cons(LegacyOption(p.delimiter), L.Cons(L.Words(p.cursor), L.Nil)))))
  }

  function AsText(v: L.Value): Option<Text> { if v.Words? && Utf8(v.text) then Some(v.text) else None }

  function AsOption(v: L.Value): Option<Text> { if v.Just? then AsText(v.value) else None }

  /** The struct a decoded value of the payload's schema becomes. */
  function AsPayload(v: L.Value): Option<Payload> {
    match v
    case Fields(Cons(bucket, Cons(prefix, Cons(delimiter, Cons(cursor, Nil))))) =>
      if AsText(bucket).Some? && AsText(cursor).Some?
      then Some(Payload(AsText(bucket).value, AsOption(prefix), AsOption(delimiter), AsText(cursor).value)) else None
    case _ => None
  }

  function ReadLegacy(s: Bytes): Option<Payload> {
    match L.FromSlice(PAYLOAD_SCHEMA, s) case Ok(v) => AsPayload(v) case Err(_) => None
  }

  lemma LegacyPayloadRoundTrip(p: Payload)
    requires Expressible(p)
    ensures ReadLegacy(L.Layout(LegacyValue(p))) == Some(p)
  {
    var v := LegacyValue(p);
    LegacyShape(p);
    L.SolidRoundTrip(PAYLOAD_SCHEMA, v);
    hide L.FromSlice, L.Layout, L.Fits, Utf8;
  }

  lemma OptionFits(t: Option<Text>)
    requires t.Some? ==> Lengthy(t.value)
    ensures L.Fits(L.Optional(L.Str), LegacyOption(t))
  {
    hide Utf8;
    if t.Some? { assert L.Fits(L.Str, L.Words(t.value)); }
  }

  lemma LegacyShape(p: Payload)
    requires Expressible(p)
    ensures L.Fits(PAYLOAD_SCHEMA, LegacyValue(p)) && L.Solid(PAYLOAD_SCHEMA)
    ensures AsPayload(LegacyValue(p)) == Some(p)
  {
    hide Utf8;
    assert L.Solid(L.Str) && L.AllSolid(L.Nil) && L.FieldsFit(L.Nil, L.Nil);
    assert L.Solid(L.Optional(L.Str));
    assert L.Fits(L.Str, L.Words(p.bucket)) && L.Fits(L.Str, L.Words(p.cursor));
    OptionFits(p.prefix);
    OptionFits(p.delimiter);
    var s4 := L.Cons(L.Str, L.Nil);
    var v4 := L.Cons(L.Words(p.cursor), L.Nil);
    assert L.FieldsFit(s4, v4) && L.AllSolid(s4);
    var s3 := L.Cons(L.Optional(L.Str), s4);
    var v3 := L.Cons(LegacyOption(p.delimiter), v4);
    assert L.FieldsFit(s3, v3) && L.AllSolid(s3);
    var s2 := L.Cons(L.Optional(L.Str), s3);
    var v2 := L.Cons(LegacyOption(p.prefix), v3);
    assert L.FieldsFit(s2, v2) && L.AllSolid(s2);
  }

  // ----- tokens -----

  const OWNED: Bytes := [0x73, 0x33, 0x63, 0x61, 0x63, 0x68, 0x65, 0x3A, 0x6C, 0x69, 0x73,
                         0x74, 0x2D, 0x74, 0x6F, 0x6B, 0x65, 0x6E, 0x3A]
  const V1: Bytes := [0x76, 0x31, 0x3A]
  const V2: Bytes := [0x76, 0x32, 0x3A]
  const CHECKSUM_BYTES: nat := 16
  const MAX_PAYLOAD_BYTES: nat := 16_384

  /** The request shape a token is bound to. */
  datatype Shape = Shape(bucket: Text, prefix: Option<Text>, delimiter: Option<Text>)

  datatype TokenError = Malformed | RequestMismatch

  datatype Continuation = NoToken | Origin | Local(token: Bytes, cursor: Text)

  function Framed(digest: Bytes -> Bytes, payload: Bytes): Bytes
    requires |digest(payload)| >= CHECKSUM_BYTES
  {
    payload + digest(payload)[..CHECKSUM_BYTES]
  }

  function PayloadOf(shape: Shape, cursor: Text): Payload {
    Payload(shape.bucket, shape.prefix, shape.delimiter, cursor)
  }

  /** The token this release mints. */
  function Mint(digest: Bytes -> Bytes, shape: Shape, cursor: Text): Bytes
    requires |digest(PayloadLayout(PayloadOf(shape, cursor)))| >= CHECKSUM_BYTES
  {
    OWNED + V2 + Encode64(Framed(digest, PayloadLayout(PayloadOf(shape, cursor))))
  }

  /** The token earlier releases minted. */
  function MintLegacy(digest: Bytes -> Bytes, shape: Shape, cursor: Text): Bytes
    requires |digest(L.Layout(LegacyValue(PayloadOf(shape, cursor))))| >= CHECKSUM_BYTES
  {
    OWNED + V1 + Encode64(Framed(digest, L.Layout(LegacyValue(PayloadOf(shape, cursor)))))
  }

  function Unframe(digest: Bytes -> Bytes, framed: Bytes): Option<Bytes>
    requires forall b :: |digest(b)| >= CHECKSUM_BYTES
  {
    if |framed| <= CHECKSUM_BYTES || |framed| > MAX_PAYLOAD_BYTES + CHECKSUM_BYTES then None else
    var n := |framed| - CHECKSUM_BYTES;
    if framed[n..] == digest(framed[..n])[..CHECKSUM_BYTES] then Some(framed[..n]) else None
  }

  function ReadToken(digest: Bytes -> Bytes, token: Bytes): Option<Payload>
    requires forall b :: |digest(b)| >= CHECKSUM_BYTES
  {
    if !(OWNED <= token) then None else
    var body := token[|OWNED|..];
    if !(V2 <= body || V1 <= body) then None else
    match Decode64(body[|V2|..]) case None => None case Some(framed) =>
    match Unframe(digest, framed) case None => None case Some(payload) =>
    if V2 <= body then ReadPayload(payload) else ReadLegacy(payload)
  }

  /** Whose token a request carries, and for an owned one, where it resumes. */
  function Classify(digest: Bytes -> Bytes, shape: Shape, token: Option<Bytes>): Result<Continuation, TokenError>
    requires forall b :: |digest(b)| >= CHECKSUM_BYTES
  {
    if token.None? then Ok(NoToken)
    else if !(OWNED <= token.value) then Ok(Origin)
    else match ReadToken(digest, token.value)
      case None => Err(Malformed)
      case Some(p) =>
        if Shape(p.bucket, p.prefix, p.delimiter) != shape then Err(RequestMismatch)
        else Ok(Local(token.value, p.cursor))
  }

  lemma UnframeIs(digest: Bytes -> Bytes, payload: Bytes)
    requires (forall b :: |digest(b)| >= CHECKSUM_BYTES) && payload != []
    ensures Unframe(digest, Framed(digest, payload)) == if |payload| <= MAX_PAYLOAD_BYTES then Some(payload) else None
  {
    var framed := Framed(digest, payload);
    assert framed[..|payload|] == payload && framed[|payload|..] == digest(payload)[..CHECKSUM_BYTES];
  }

  lemma TokenReads(digest: Bytes -> Bytes, version: Bytes, payload: Bytes)
    requires (forall b :: |digest(b)| >= CHECKSUM_BYTES) && (version == V1 || version == V2) && payload != []
    ensures var token := OWNED + version + Encode64(Framed(digest, payload));
      && OWNED <= token
      && ReadToken(digest, token) ==
           if |payload| > MAX_PAYLOAD_BYTES then None
           else if version == V2 then ReadPayload(payload) else ReadLegacy(payload)
  {
    hide Encode64, Decode64, ReadPayload, ReadLegacy, Framed, Unframe;
    var code := Encode64(Framed(digest, payload));
    var token := OWNED + version + code;
    assert token[..|OWNED|] == OWNED;
    assert token[|OWNED|..] == version + code;
    assert (version + code)[..3] == version && (version + code)[3..] == code;
    Base64RoundTrip(Framed(digest, payload));
    UnframeIs(digest, payload);
  }

  /** What one verdict on a token says of every request it may come back with. */
  ghost predicate Resumes(digest: Bytes -> Bytes, shape: Shape, cursor: Text, token: Bytes, size: nat)
    requires forall b :: |digest(b)| >= CHECKSUM_BYTES
  {
    forall asked: Shape :: Classify(digest, asked, Some(token)) ==
      if size > MAX_PAYLOAD_BYTES then Err(Malformed)
      else if asked == shape then Ok(Local(token, cursor))
      else Err(RequestMismatch)
  }

  /** A payload within the limit has no length past 64 bits. */
  lemma ShortIsExpressible(p: Payload)
    ensures |PayloadLayout(p)| <= MAX_PAYLOAD_BYTES ==> Expressible(p)
    ensures |L.Layout(LegacyValue(p))| <= MAX_PAYLOAD_BYTES ==> Expressible(p)
  {
    hide Varint, Utf8;
    LegacyLengths(p);
  }

  lemma LegacyLengths(p: Payload)
    ensures var n := |L.Layout(LegacyValue(p))|;
      && |p.bucket| <= n && |p.cursor| <= n
      && (p.prefix.Some? ==> |p.prefix.value| <= n) && (p.delimiter.Some? ==> |p.delimiter.value| <= n)
  {
    hide Le, Utf8;
    var v4 := L.Cons(L.Words(p.cursor), L.Nil);
    var v3 := L.Cons(LegacyOption(p.delimiter), v4);
    var v2 := L.Cons(LegacyOption(p.prefix), v3);
    var v1 := L.Cons(L.Words(p.bucket), v2);
    assert |L.Layouts(v4)| >= |p.cursor|;
    assert |L.Layouts(v3)| >= |L.Layout(LegacyOption(p.delimiter))| + |L.Layouts(v4)|;
    assert |L.Layouts(v2)| >= |L.Layout(LegacyOption(p.prefix))| + |L.Layouts(v3)|;
    assert |L.Layouts(v1)| >= |p.bucket| + |L.Layouts(v2)|;
    if p.prefix.Some? { assert |L.Layout(L.Words(p.prefix.value))| >= |p.prefix.value|; }
    if p.delimiter.Some? { assert |L.Layout(L.Words(p.delimiter.value))| >= |p.delimiter.value|; }
  }

  /** A minted token decodes back to its cursor on the request it was minted for exactly
      when its payload is within 16 KiB, and on any other request is refused. */
  lemma TokenRoundTrip(digest: Bytes -> Bytes, shape: Shape, cursor: Text)
    requires forall b :: |digest(b)| >= CHECKSUM_BYTES
    ensures Resumes(digest, shape, cursor, Mint(digest, shape, cursor), |PayloadLayout(PayloadOf(shape, cursor))|)
  {
    hide ReadToken, ReadPayload, PayloadLayout, Encode64, Framed, Expressible, Utf8;
    var p := PayloadOf(shape, cursor);
    NeverEmpty(p);
    ShortIsExpressible(p);
    if Expressible(p) { PayloadRoundTrip(p); }
    TokenReads(digest, V2, PayloadLayout(p));
  }

  /** The same verdicts on the same requests for a token in the legacy layout. */
  lemma LegacyTokenRoundTrip(digest: Bytes -> Bytes, shape: Shape, cursor: Text)
    requires forall b :: |digest(b)| >= CHECKSUM_BYTES
    ensures Resumes(digest, shape, cursor, MintLegacy(digest, shape, cursor),
                    |L.Layout(LegacyValue(PayloadOf(shape, cursor)))|)
  {
    hide ReadToken, ReadLegacy, L.Layout, Encode64, Framed, Expressible, Utf8;
    var p := PayloadOf(shape, cursor);
    NeverEmpty(p);
    ShortIsExpressible(p);
    if Expressible(p) { LegacyPayloadRoundTrip(p); }
    TokenReads(digest, V1, L.Layout(LegacyValue(p)));
  }

  lemma NeverEmpty(p: Payload)
    ensures PayloadLayout(p) != [] && L.Layout(LegacyValue(p)) != []
  {
    hide Utf8;
    assert |Varint(|p.bucket|)| > 0;
    assert |L.Layout(L.Words(p.bucket))| >= 8;
  }
}
