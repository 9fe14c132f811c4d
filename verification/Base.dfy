/** Vocabulary shared by every part of the model: optional values, results, bytes,
    UTF-8 text, and fixed-width little-endian integers. */
module Base {

  datatype Option<+T> = None | Some(value: T)

  datatype Result<+T, +E> = Ok(value: T) | Err(error: E) {
    predicate IsFailure() { Err? }

    function PropagateFailure<U>(): Result<U, E>
      requires Err?
    {
      Err(error)
    }

    function Extract(): T
      requires Ok?
    {
      value
    }
  }

  type byte = b: int | 0 <= b < 256

  const U32_LIMIT: nat := 0x1_0000_0000
  const U64_LIMIT: nat := 0x1_0000_0000_0000_0000
  const I64_LIMIT: int := 0x8000_0000_0000_0000

  type u64 = n: int | 0 <= n < U64_LIMIT
  type i64 = n: int | -I64_LIMIT <= n < I64_LIMIT

  // ----- UTF-8 -----

  predicate Continuation(b: byte) { 0x80 <= b <= 0xBF }

  /** Byte width of the well-formed scalar at the head of `s`, zero when there is none
      (Table 3-7 of the Unicode Standard). */
  function ScalarWidth(s: seq<byte>): nat
    ensures ScalarWidth(s) <= |s|
  {
    if |s| >= 1 && s[0] < 0x80 then 1
    else if |s| >= 2 && 0xC2 <= s[0] <= 0xDF && Continuation(s[1]) then 2
    else if |s| >= 3 && Continuation(s[2]) &&
            ((s[0] == 0xE0 && 0xA0 <= s[1] <= 0xBF) ||
             (s[0] == 0xED && 0x80 <= s[1] <= 0x9F) ||
             ((0xE1 <= s[0] <= 0xEC || 0xEE <= s[0] <= 0xEF) && Continuation(s[1])))
    then 3
    else if |s| >= 4 && Continuation(s[2]) && Continuation(s[3]) &&
            ((s[0] == 0xF0 && 0x90 <= s[1] <= 0xBF) ||
             (0xF1 <= s[0] <= 0xF3 && Continuation(s[1])) ||
             (s[0] == 0xF4 && 0x80 <= s[1] <= 0x8F))
    then 4
    else 0
  }

  predicate Utf8(s: seq<byte>) {
    |s| == 0 || (ScalarWidth(s) > 0 && Utf8(s[ScalarWidth(s)..]))
  }

  /** A Rust string: ordered and compared as its UTF-8 bytes. */
  type Text = s: seq<byte> | Utf8(s)

  lemma ScalarWidthExtends(a: seq<byte>, b: seq<byte>)
    requires ScalarWidth(a) > 0
    ensures ScalarWidth(a + b) == ScalarWidth(a)
  {
    var c := a + b;
    assert c[0] == a[0];
    assert |a| > 1 ==> c[1] == a[1];
    assert |a| > 2 ==> c[2] == a[2];
    assert |a| > 3 ==> c[3] == a[3];
  }

  lemma {:induction false} Utf8Concat(a: seq<byte>, b: seq<byte>)
    requires Utf8(a) && Utf8(b)
    ensures Utf8(a + b)
  {
    hide ScalarWidth;
    if |a| == 0 {
      assert a + b == b;
    } else {
      var w := ScalarWidth(a);
      ScalarWidthExtends(a, b);
      Utf8Concat(a[w..], b);
      assert (a + b)[w..] == a[w..] + b;
    }
  }

  lemma {:induction false} AsciiIsUtf8(s: seq<byte>)
    requires forall i :: 0 <= i < |s| ==> s[i] < 0x80
    ensures Utf8(s)
  {
    if |s| > 0 {
      AsciiIsUtf8(s[1..]);
    }
  }

  // ----- little-endian integers -----

  function Pow256(width: nat): nat {
    if width == 0 then 1 else 256 * Pow256(width - 1)
  }

  /** The low `width` bytes of `n`, least significant first. */
  function Le(n: nat, width: nat): (s: seq<byte>)
    ensures |s| == width
  {
    if width == 0 then [] else [n % 256] + Le(n / 256, width - 1)
  }

  function FromLe(s: seq<byte>): nat {
    if |s| == 0 then 0 else s[0] + 256 * FromLe(s[1..])
  }

  lemma {:induction false} LeRoundTrip(n: nat, width: nat)
    requires n < Pow256(width)
    ensures FromLe(Le(n, width)) == n
  {
    if width > 0 {
      LeRoundTrip(n / 256, width - 1);
      assert Le(n, width)[1..] == Le(n / 256, width - 1);
    }
  }

  lemma {:induction false} FromLeBound(s: seq<byte>)
    ensures FromLe(s) < Pow256(|s|)
  {
    if |s| > 0 {
      FromLeBound(s[1..]);
    }
  }

  lemma Widths()
    ensures Pow256(4) == U32_LIMIT && Pow256(8) == U64_LIMIT
  {
    assert Pow256(1) == 256 && Pow256(2) == 0x1_0000 && Pow256(3) == 0x100_0000;
    assert Pow256(4) == U32_LIMIT;
    assert Pow256(5) == 0x100_0000_0000 && Pow256(6) == 0x1_0000_0000_0000;
    assert Pow256(7) == 0x100_0000_0000_0000;
  }
}
