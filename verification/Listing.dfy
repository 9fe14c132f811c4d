/** ListObjectsV2 served from the index (src/index.rs): one page of keys and common
    prefixes, and the walk a client takes by following its cursors. */
module Listing {
  import opened Base
  import opened Ordered

  type Bytes = seq<byte>

  // ----- common prefixes -----

  /** Offset of the first occurrence of `d`. */
  function Find(s: Bytes, d: Bytes): (r: Option<nat>)
    ensures r.Some? ==> r.value + |d| <= |s|
  {
    if |s| < |d| then None
    else if s[..|d|] == d then Some(0)
    else if s == [] then None
    else match Find(s[1..], d) case None => None case Some(i) => Some(i + 1)
  }

  predicate Occurs(s: Bytes, d: Bytes, i: nat) { i + |d| <= |s| && s[i..i + |d|] == d }

  lemma OccursTail(s: Bytes, d: Bytes, i: nat)
    requires s != []
    ensures Occurs(s[1..], d, i) <==> Occurs(s, d, i + 1)
  {
    if i + 1 + |d| <= |s| { assert s[1..][i..i + |d|] == s[i + 1..i + 1 + |d|]; }
  }

  lemma {:induction false} FindIsFirst(s: Bytes, d: Bytes)
    ensures Find(s, d).None? ==> forall i: nat :: !Occurs(s, d, i)
    ensures Find(s, d).Some? ==> Occurs(s, d, Find(s, d).value) && forall i: nat :: i < Find(s, d).value ==>
        !Occurs(s, d, i)
  {
    if |s| >= |d| { assert s[0..0 + |d|] == s[..|d|]; }
    if |s| >= |d| && s[..|d|] != d && s != [] {
      FindIsFirst(s[1..], d);
      forall i: nat | i > 0 ensures Occurs(s, d, i) <==> Occurs(s[1..], d, i - 1) { OccursTail(s, d, i - 1); }
      assert !Occurs(s, d, 0);
      hide Occurs;
    }
  }

  datatype Request = Request(prefix: Text, delimiter: Option<Text>)

  /** The common prefix a key rolls up into: through its first delimiter past the prefix. */
  function GroupOf(q: Request, k: Bytes): Option<Bytes> {
    if q.delimiter.None? || !(q.prefix <= k) then None else
    match Find(k[|q.prefix|..], q.delimiter.value)
    case None => None
    case Some(i) => Some(k[..|q.prefix| + i + |q.delimiter.value|])
  }

  lemma {:induction false} FindStable(r: Bytes, d: Bytes, r': Bytes)
    requires Find(r, d).Some? && r[..Find(r, d).value + |d|] <= r'
    ensures Find(r', d) == Find(r, d)
  {
    var i := Find(r, d).value;
    if i > 0 {
      assert r'[0] == r[0];
      assert r[..i + |d|][1..] == r[1..][..i - 1 + |d|];
      FindStable(r[1..], d, r'[1..]);
      assert r[..|d|] == r'[..|d|];
    } else {
      assert r'[..|d|] == r[..|d|];
    }
  }

  /** A key rolls up into a common prefix exactly when it starts with it, once any key
      does: so the keys of one are those that start with it. */
  lemma GroupIsBlock(q: Request, a: Bytes, b: Bytes)
    requires GroupOf(q, a).Some?
    ensures GroupOf(q, b) == GroupOf(q, a) <==> GroupOf(q, a).value <= b
  {
    var g := GroupOf(q, a).value;
    var n := |q.prefix|;
    if g <= b {
      assert q.prefix <= g && b[..n] == g[..n];
      assert a[n..][..|g| - n] == g[n..] && b[n..|g|] == g[n..];
      assert g[n..] <= b[n..];
      FindStable(a[n..], q.delimiter.value, b[n..]);
      assert b[..|g|] == g;
    }
  }

  /** A key between two that start with `g` starts with it too. */
  lemma {:induction false} Between(g: Bytes, a: Bytes, b: Bytes, c: Bytes)
    requires g <= a && g <= c && Less(a, b) && Less(b, c)
    ensures g <= b
  {
    if g != [] {
      assert b != [] && a[0] == g[0] && c[0] == g[0] && b[0] == g[0];
      Between(g[1..], a[1..], b[1..], c[1..]);
      assert b == [b[0]] + b[1..] && g == [g[0]] + g[1..];
    }
  }

  // ----- the unpaged roll-up -----

  /** Undelimited keys and common prefixes, each in key order. */
  datatype Roll = Roll(keys: seq<Text>, groups: seq<Bytes>)

  function Count(r: Roll): nat { |r.keys| + |r.groups| }

  /** Whether the key brings an item the roll does not hold. */
  predicate Adds(q: Request, r: Roll, k: Text) {
    GroupOf(q, k).None? || GroupOf(q, k).value !in r.groups
  }

  function Rolled(q: Request, r: Roll, k: Text): Roll {
    if !Adds(q, r, k) then r
    else if GroupOf(q, k).None? then r.(keys := r.keys + [k])
    else r.(groups := r.groups + [GroupOf(q, k).value])
  }

  function RollUp(q: Request, ks: seq<Text>): Roll {
    if ks == [] then Roll([], []) else Rolled(q, RollUp(q, ks[..|ks| - 1]), ks[|ks| - 1])
  }

  function Join(a: Roll, b: Roll): Roll { Roll(a.keys + b.keys, a.groups + b.groups) }

  lemma {:induction false} GroupsAre(q: Request, ks: seq<Text>, g: Bytes)
    ensures g in RollUp(q, ks).groups <==> exists i :: 0 <= i < |ks| && GroupOf(q, ks[i]) == Some(g)
  {
    hide GroupOf, Utf8;
    if ks != [] {
      var n := |ks| - 1;
      GroupsAre(q, ks[..n], g);
      assert forall i :: 0 <= i < n ==> ks[..n][i] == ks[i];
    }
  }

  /** No item of the second part is one of the first: the parts join without overlap. */
  lemma {:induction false} RollsJoin(q: Request, ks: seq<Text>, n: nat)
    requires n <= |ks|
    requires forall i, g :: n <= i < |ks| && GroupOf(q, ks[i]) == Some(g) ==> g !in RollUp(q, ks[..n]).groups
    ensures RollUp(q, ks) == Join(RollUp(q, ks[..n]), RollUp(q, ks[n..]))
    decreases |ks|
  {
    hide GroupOf, Utf8;
    if n == |ks| {
      assert ks[..n] == ks;
    } else {
      var m := |ks| - 1;
      assert ks[..m][..n] == ks[..n] && ks[..m][n..] == ks[n..][..m - n] && ks[n..][m - n] == ks[m];
      RollsJoin(q, ks[..m], n);
    }
  }

  lemma {:induction false} KeysAre(q: Request, ks: seq<Text>)
    requires Ascending(ks)
    ensures Ascending(RollUp(q, ks).keys)
    ensures forall k :: k in RollUp(q, ks).keys <==> k in ks && GroupOf(q, k).None?
  {
    hide GroupOf, Less, Utf8;
    if ks != [] {
      var n := |ks| - 1;
      KeysAre(q, ks[..n]);
      assert ks == ks[..n] + [ks[n]];
      var done := RollUp(q, ks[..n]).keys;
      if GroupOf(q, ks[n]).None? {
        if done != [] { assert done[|done| - 1] in done && done[|done| - 1] in ks[..n]; }
        AscendingExtend(done, ks[n]);
      }
    }
  }

  predicate Rising(gs: seq<Bytes>) { forall i, j :: 0 <= i < j < |gs| ==> Less(gs[i], gs[j]) }

  /** Two keys in order that roll up apart do so in that order. */
  lemma {:induction false} ApartInOrder(g: Bytes, h: Bytes, a: Bytes, b: Bytes)
    requires g <= a && h <= b && Less(a, b) && !(g <= b) && !(h <= a)
    ensures Less(g, h)
  {
    if g != [] && h != [] && g[0] == h[0] {
      ApartInOrder(g[1..], h[1..], a[1..], b[1..]);
    }
  }

  /** Common prefixes come out once each and in order, as an ordered set holds them. */
  lemma {:induction false} GroupsRise(q: Request, ks: seq<Text>)
    requires Ascending(ks)
    ensures Rising(RollUp(q, ks).groups)
  {
    hide GroupOf, Utf8;
    if ks != [] {
      var n := |ks| - 1;
      GroupsRise(q, ks[..n]);
      var r := RollUp(q, ks[..n]);
      var h := GroupOf(q, ks[n]);
      if h.Some? && h.value !in r.groups {
        forall i | 0 <= i < |r.groups| ensures Less(r.groups[i], h.value) {
          var g := r.groups[i];
          assert g in r.groups;
          GroupsAre(q, ks[..n], g);
          var j :| 0 <= j < n && GroupOf(q, ks[..n][j]) == Some(g);
          GroupIsBlock(q, ks[j], ks[n]);
          GroupIsBlock(q, ks[n], ks[j]);
          GroupStarts(q, ks[j]);
          GroupStarts(q, ks[n]);
          ApartInOrder(g, h.value, ks[j], ks[n]);
        }
      }
    }
  }

  lemma GroupStarts(q: Request, k: Bytes)
    ensures GroupOf(q, k).Some? ==> GroupOf(q, k).value <= k
  {}

  // ----- pages -----

  /** Keys a page of at most `max` items consumes: it stops before the first key that
      would bring one item too many, and runs on through keys of a prefix it has. */
  function PageEnd(q: Request, ks: seq<Text>, max: nat, from: nat): (n: nat)
    requires from <= |ks|
    ensures from <= n <= |ks|
    decreases |ks| - from
  {
    if from == |ks| then from
    else if Count(RollUp(q, ks[..from])) >= max && Adds(q, RollUp(q, ks[..from]), ks[from]) then from
    else PageEnd(q, ks, max, from + 1)
  }

  lemma {:induction false} PageFills(q: Request, ks: seq<Text>, max: nat, from: nat)
    requires from <= |ks| && Count(RollUp(q, ks[..from])) <= max
    ensures var n := PageEnd(q, ks, max, from);
      && Count(RollUp(q, ks[..n])) <= max
      && (n < |ks| ==> Count(RollUp(q, ks[..n])) == max && Adds(q, RollUp(q, ks[..n]), ks[n]))
    decreases |ks| - from
  {
    hide GroupOf, Utf8;
    if from < |ks| && !(Count(RollUp(q, ks[..from])) >= max && Adds(q, RollUp(q, ks[..from]), ks[from])) {
      assert ks[..from + 1][..from] == ks[..from];
      PageFills(q, ks, max, from + 1);
    }
  }

  /** Past the end of a page, no key belongs to a common prefix the page holds. */
  lemma PageSeals(q: Request, ks: seq<Text>, n: nat)
    requires Ascending(ks) && n < |ks| && Adds(q, RollUp(q, ks[..n]), ks[n])
    ensures forall i, g :: n <= i < |ks| && GroupOf(q, ks[i]) == Some(g) ==> g !in RollUp(q, ks[..n]).groups
  {
    hide GroupOf, Less, Utf8;
    forall i, g | n <= i < |ks| && GroupOf(q, ks[i]) == Some(g) ensures g !in RollUp(q, ks[..n]).groups {
      GroupsAre(q, ks[..n], g);
      if exists j :: 0 <= j < n && GroupOf(q, ks[..n][j]) == Some(g) {
        var j :| 0 <= j < n && GroupOf(q, ks[..n][j]) == Some(g);
        assert GroupOf(q, ks[j]) == Some(g);
        GroupStarts(q, ks[j]);
        GroupStarts(q, ks[i]);
        if i > n { Between(g, ks[j], ks[n], ks[i]); }
        GroupIsBlock(q, ks[j], ks[n]);
      }
    }
  }

  /** The rest of the keys roll up into exactly the rest of the items. */
  lemma PageSplits(q: Request, ks: seq<Text>, max: nat)
    requires Ascending(ks)
    ensures var n := PageEnd(q, ks, max, 0);
      RollUp(q, ks) == Join(RollUp(q, ks[..n]), RollUp(q, ks[n..]))
  {
    hide GroupOf, Less, Utf8, Adds;
    var n := PageEnd(q, ks, max, 0);
    assert ks[..0] == [];
    PageFills(q, ks, max, 0);
    if n < |ks| {
      PageSeals(q, ks, n);
    }
    RollsJoin(q, ks, n);
  }
}
