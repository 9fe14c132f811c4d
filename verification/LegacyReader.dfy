/** The legacy decoder as the program runs it: one reader whose input advances, and counted
    runs of elements, proved to return what the decoding functions do. */
module LegacyReaders {
  import opened Base
  import opened Legacy

  ghost predicate Reads<T>(p: Decoding<T>, r: Result<T, LegacyError>, rest: seq<byte>) {
    match p
    case Ok(read) => r == Ok(read.value) && rest == read.rest
    case Err(e) => r == Err(e)
  }

  class Reader {
    var input: seq<byte>

    constructor (bytes: seq<byte>)
      ensures input == bytes
    {
      input := bytes;
    }

    method TakePart(len: nat) returns (r: Result<seq<byte>, LegacyError>)
      modifies this
      ensures Reads(Take(old(input), len), r, input)
    {
      if len > |input| {
        return Err(Truncated);
      }
      r := Ok(input[..len]);
      input := input[len..];
    }

    method Len() returns (r: Result<nat, LegacyError>)
      modifies this
      ensures Reads(TakeLen(old(input)), r, input)
    {
      hide FromLe, Take;
      var raw :- TakePart(8);
      var len := FromLe(raw);
      if len > |input| {
        return Err(Truncated);
      }
      return Ok(len);
    }

    method Bytes() returns (r: Result<seq<byte>, LegacyError>)
      modifies this
      ensures Reads(TakeBytes(old(input)), r, input)
    {
      hide TakeLen, Take;
      var len :- Len();
      r := TakePart(len);
    }

    method Text() returns (r: Result<seq<byte>, LegacyError>)
      modifies this
      ensures Reads(TakeStr(old(input)), r, input)
    {
      hide TakeBytes, Utf8;
      var raw :- Bytes();
      if !Utf8(raw) {
        return Err(Invalid);
      }
      return Ok(raw);
    }

    method Char() returns (r: Result<seq<byte>, LegacyError>)
      modifies this
      ensures Reads(TakeChar(old(input)), r, input)
    {
      hide Take, Utf8, LeadWidth;
      if input == [] {
        return Err(Truncated);
      }
      var width := LeadWidth(input[0]);
      if width == 0 {
        return Err(Invalid);
      }
      var encoded :- TakePart(width);
      if !Utf8(encoded) {
        return Err(Invalid);
      }
      return Ok(encoded);
    }

    method Tag() returns (r: Result<bool, LegacyError>)
      modifies this
      ensures Reads(TakeTag(old(input)), r, input)
    {
      var raw :- TakePart(1);
      if raw[0] == 0 {
        return Ok(false);
      }
      if raw[0] == 1 {
        return Ok(true);
      }
      return Err(Invalid);
    }

    method Index() returns (r: Result<nat, LegacyError>)
      modifies this
      ensures Reads(TakeIndex(old(input)), r, input)
    {
      hide FromLe, Take;
      var raw :- TakePart(4);
      return Ok(FromLe(raw));
    }

    method Plain(s: Schema) returns (r: Result<Value, LegacyError>)
      requires s.Fixed? || s.Flag? || s.Char? || s.Str? || s.Blob? || s.Unit?
      modifies this
      ensures Reads(Decode(s, old(input)), r, input)
    {
      hide Take, TakeTag, TakeChar, TakeStr, TakeBytes;
      match s {
        case Fixed(width) => var raw :- TakePart(width); r := Ok(Raw(raw));
        case Flag => var flag :- Tag(); r := Ok(Truth(flag));
        case Char => var c :- Char(); r := Ok(Scalar(c));
        case Str => var text :- Text(); r := Ok(Words(text));
        case Blob => var raw :- Bytes(); r := Ok(Buffer(raw));
        case Unit => r := Ok(Nothing);
      }
    }

    /** One value of the shape the target type asks for. */
    method Deserialize(s: Schema) returns (r: Result<Value, LegacyError>)
      modifies this
      ensures Reads(Decode(s, old(input)), r, input)
      decreases s, 0, 0
    {
      hide Take, TakeTag, TakeChar, TakeStr, TakeBytes, TakeLen, TakeIndex, DecodeEach, DecodeFields;
      match s {
        case Optional(of) =>
          var some :- Tag();
          if !some {
            return Ok(Absent);
          }
          var value :- Deserialize(of);
          r := Ok(Just(value));
        case Seq(of) =>
          var remaining :- Len();
          var items :- Elements(of, remaining);
          r := Ok(Items(items));
        case Tuple(fields) =>
          var items :- Members(fields);
          r := Ok(Fields(items));
        case Enum(variants) =>
          var index :- Index();
          if index >= |variants| {
            return Err(Invalid);
          }
          var value :- Deserialize(variants[index]);
          r := Ok(Variant(index, value));
        case _ => r := Plain(s);
      }
    }

    /** `count` elements of one schema, the loop kept equal to the recursive decoding. */
    method Elements(of: Schema, count: nat) returns (r: Result<List<Value>, LegacyError>)
      modifies this
      ensures Reads(DecodeEach(of, count, old(input)), r, input)
      decreases of, 1, 0
    {
      hide Decode, DecodeEach;
      var remaining := count;
      var reversed: List<Value> := Nil;
      ghost var whole := DecodeEach(of, count, input);
      OnNothing(whole);
      while remaining > 0
        invariant whole == Onto(reversed, DecodeEach(of, remaining, input))
        decreases remaining
      {
        ElementNext(reversed, of, remaining, input);
        remaining := remaining - 1;
        var value :- Deserialize(of);
        reversed := Cons(value, reversed);
      }
      ElementsEnd(reversed, of, input);
      return Ok(Reversed(reversed, Nil));
    }

    method Members(fields: List<Schema>) returns (r: Result<List<Value>, LegacyError>)
      modifies this
      ensures Reads(DecodeFields(fields, old(input)), r, input)
      decreases fields, 1, 0
    {
      hide Decode;
      if fields.Nil? {
        return Ok(Nil);
      }
      var head :- Deserialize(fields.head);
      var tail :- Members(fields.tail);
      return Ok(Cons(head, tail));
    }
  }

  /** Elements read so far are kept latest first. */
  function Reversed(latest: List<Value>, tail: List<Value>): List<Value> {
    if latest.Nil? then tail else Reversed(latest.tail, Cons(latest.head, tail))
  }

  function Onto(latest: List<Value>, p: Decoding<List<Value>>): Decoding<List<Value>> {
    match p
    case Ok(r) => Ok(Read(Reversed(latest, r.value), r.rest))
    case Err(e) => Err(e)
  }

  lemma OnNothing(p: Decoding<List<Value>>)
    ensures Onto(Nil, p) == p
  {}

  lemma ElementNext(latest: List<Value>, of: Schema, n: nat, input: seq<byte>)
    requires n > 0
    ensures Onto(latest, DecodeEach(of, n, input)) ==
      match Decode(of, input)
      case Err(e) => Err(e)
      case Ok(head) => Onto(Cons(head.value, latest), DecodeEach(of, n - 1, head.rest))
  {
    hide Decode;
  }

  lemma ElementsEnd(latest: List<Value>, of: Schema, input: seq<byte>)
    ensures Onto(latest, DecodeEach(of, 0, input)) == Ok(Read(Reversed(latest, Nil), input))
  {}

  /** The whole input as one value, or the error of the decoding functions. */
  method ReadSlice(s: Schema, bytes: seq<byte>) returns (r: Result<Value, LegacyError>)
    ensures r == FromSlice(s, bytes)
  {
    hide Decode;
    var reader := new Reader(bytes);
    var value :- reader.Deserialize(s);
    if reader.input != [] {
      return Err(Trailing);
    }
    return Ok(value);
  }
}
