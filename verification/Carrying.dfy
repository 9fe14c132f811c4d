/** The install as the program performs it (src/index/fleet/install.rs): one pass over the
    live index that covers, carries or refuses each of its effects, and one over what it
    carried, proved against the passes of `Install`. */
module Carrying {
  import opened Base
  import opened Ordered
  import opened Entries
  import opened Rows
  import opened Buckets
  import opened ImageCodec
  import opened Index
  import opened Install
  import opened InstallSafety

  datatype Effect =
    | RowEffect(bucket: Text, key: Text, entry: Entry)
    | DeleteEffect(bucket: Text, key: Text, at: Time)

  // ----- what the check collects -----

  function RowEffects(live: Bucket, peer: Bucket, name: Text, keys: seq<Text>): seq<Effect> {
    if keys == [] then [] else
      var k := keys[|keys| - 1];
      RowEffects(live, peer, name, keys[..|keys| - 1]) +
      if CarriesRow(live, peer, k) then [RowEffect(name, k, live.keys.rows[k])] else []
  }

  function DeleteEffects(live: Bucket, peer: Bucket, name: Text, keys: seq<Text>): seq<Effect> {
    if keys == [] then [] else
      var k := keys[|keys| - 1];
      DeleteEffects(live, peer, name, keys[..|keys| - 1]) +
      if CarriesDelete(live, peer, k) then [DeleteEffect(name, k, live.gone.rows[k])] else []
  }

  function BucketEffects(live: Bucket, peer: Bucket, name: Text): seq<Effect> {
    RowEffects(live, peer, name, KeyOrder(live)) + DeleteEffects(live, peer, name, GoneOrder(live))
  }

  function CarryOf(live: Index, peer: Stage, names: seq<Text>): seq<Effect>
    requires forall name :: name in names ==> Both(live, peer, name)
  {
    if names == [] then [] else
      var name := names[|names| - 1];
      assert name in names && Both(live, peer, name);
      CarryOf(live, peer, names[..|names| - 1]) + BucketEffects(live.buckets[name], peer.buckets[name], name)
  }

  method CheckUniverse(universe: seq<Text>) returns (ok: bool)
    ensures ok <==> universe != [] && Ascending(universe)
  {
    hide Utf8;
    if universe == [] {
      return false;
    }
    for i := 1 to |universe|
      invariant Ascending(universe[..i])
    {
      if !Less(universe[i - 1], universe[i]) {
        return false;
      }
      AscendingExtend(universe[..i], universe[i]);
      assert universe[..i] + [universe[i]] == universe[..i + 1];
    }
    assert universe[..|universe|] == universe;
    return true;
  }

  /** The verdict on one live row or tombstone of the key. */
  ghost predicate Refuses(live: Bucket, peer: Bucket, k: Text, clause: Clause) {
    || (k in live.keys.rows && RowVerdict(live, peer, k) == Err(clause))
    || (k in live.gone.rows && TombstoneVerdict(live, peer, k) == Err(clause))
  }

  /** Rows then tombstones of one bucket: each covered, carried, or the end of the check. */
  method CheckBucket(live: Bucket, peer: Bucket, name: Text) returns (r: Result<seq<Effect>, (Text, Clause)>)
    ensures r.Ok? <==> Orderable(live, peer)
    ensures r.Ok? ==> r.value == BucketEffects(live, peer, name)
    ensures r.Err? ==> Refuses(live, peer, r.error.0, r.error.1)
  {
    hide Utf8, RowVerdict, TombstoneVerdict, Sorted;
    var keys := KeyOrder(live);
    var rows := [];
    for i := 0 to |keys|
      invariant rows == RowEffects(live, peer, name, keys[..i])
      invariant forall k :: k in keys[..i] ==> k in live.keys.rows && RowVerdict(live, peer, k).Ok?
    {
      assert keys[..i + 1][..i] == keys[..i] && keys[..i + 1] == keys[..i] + [keys[i]];
      var k := keys[i];
      assert k in keys;
      match RowVerdict(live, peer, k) {
        case Err(clause) => return Err((k, clause));
        case Ok(carried) => if carried { rows := rows + [RowEffect(name, k, live.keys.rows[k])]; }
      }
    }
    assert keys[..|keys|] == keys;
    var gone := GoneOrder(live);
    var dels := [];
    for i := 0 to |gone|
      invariant dels == DeleteEffects(live, peer, name, gone[..i])
      invariant forall k :: k in gone[..i] ==> k in live.gone.rows && TombstoneVerdict(live, peer, k).Ok?
    {
      assert gone[..i + 1][..i] == gone[..i] && gone[..i + 1] == gone[..i] + [gone[i]];
      var k := gone[i];
      assert k in gone;
      match TombstoneVerdict(live, peer, k) {
        case Err(clause) => return Err((k, clause));
        case Ok(carried) => if carried { dels := dels + [DeleteEffect(name, k, live.gone.rows[k])]; }
      }
    }
    assert gone[..|gone|] == gone;
    return Ok(rows + dels);
  }

  lemma {:induction false} RowTotalGrows(buckets: map<Text, Bucket>, names: seq<Text>, i: nat)
    requires i <= |names| && forall name :: name in names ==> name in buckets
    ensures RowTotal(buckets, names[..i]) <= RowTotal(buckets, names)
    decreases |names|
  {
    hide BucketRows, Utf8;
    if i < |names| {
      var n := |names| - 1;
      RowTotalGrows(buckets, names[..n], i);
      assert names[..n][..i] == names[..i];
    } else {
      assert names[..i] == names;
    }
  }

  /** Why a candidate is turned away. */
  datatype Refusal =
    | UniverseMismatch
    | LiveRebuilding(bucket: Text)
    | CutsApart
    | CandidateUnsynced(bucket: Text)
    | RowLimit
    | Unordered(bucket: Text, key: Text, clause: Clause)

  /** What a refusal says of the two indexes. */
  ghost predicate Justified(x: Refusal, live: Index, peer: Stage, aligned: bool, universe: seq<Text>, maxRows: nat) {
    match x
    case UniverseMismatch =>
      || universe == [] || !Ascending(universe) || |peer.buckets| != |universe|
      || (exists name :: name in live.buckets && name !in universe)
      || (exists name :: name in universe && name !in peer.buckets)
    case LiveRebuilding(name) => name in live.buckets && live.buckets[name].rebuild.Some?
    case CutsApart => !aligned
    case CandidateUnsynced(name) =>
      name in universe && name in peer.buckets && (!peer.buckets[name].synced || peer.buckets[name].fences != map[])
    case RowLimit => RowTotal(live.buckets, Sorted(live.buckets.Keys)) > maxRows
    case Unordered(name, k, clause) =>
      Both(live, peer, name) && Refuses(live.buckets[name], peer.buckets[name], k, clause)
  }

  /** The checks before any row is compared. */
  method CheckShape(live: Index, peer: Stage, aligned: bool, universe: seq<Text>) returns (r: Result<(), Refusal>)
    ensures r.Ok? <==>
      && universe != [] && Ascending(universe) && |peer.buckets| == |universe|
      && (forall name :: name in live.buckets ==> name in universe && live.buckets[name].rebuild.None?)
      && aligned
      && (forall name :: name in universe ==>
          name in peer.buckets && peer.buckets[name].synced && peer.buckets[name].fences == map[])
    ensures r.Err? ==> forall maxRows: nat :: Justified(r.error, live, peer, aligned, universe, maxRows)
  {
    hide Utf8, Ascending, Sorted, RowTotal, Refuses;
    var ordered := CheckUniverse(universe);
    if !ordered || |peer.buckets| != |universe| {
      return Err(UniverseMismatch);
    }
    var names := Sorted(live.buckets.Keys);
    for i := 0 to |names|
      invariant forall name :: name in names[..i] ==> name in universe && live.buckets[name].rebuild.None?
    {
      assert names[..i + 1] == names[..i] + [names[i]] && names[i] in names;
      if names[i] !in universe {
        return Err(UniverseMismatch);
      }
      if live.buckets[names[i]].rebuild.Some? {
        return Err(LiveRebuilding(names[i]));
      }
    }
    assert names[..|names|] == names;
    if !aligned {
      return Err(CutsApart);
    }
    for i := 0 to |universe|
      invariant forall name :: name in universe[..i] ==>
          name in peer.buckets && peer.buckets[name].synced && peer.buckets[name].fences == map[]
    {
      assert universe[..i + 1] == universe[..i] + [universe[i]] && universe[i] in universe;
      if universe[i] !in peer.buckets {
        return Err(UniverseMismatch);
      }
      if !peer.buckets[universe[i]].synced || peer.buckets[universe[i]].fences != map[] {
        return Err(CandidateUnsynced(universe[i]));
      }
    }
    assert universe[..|universe|] == universe;
    return Ok(());
  }

  /** The comparison of all live effects with the candidate, `maxRows` of them at most. */
  method CheckEffects(live: Index, peer: Stage, maxRows: nat) returns (r: Result<seq<Effect>, Refusal>)
    requires forall name :: name in live.buckets ==> name in peer.buckets
    ensures r.Ok? <==>
      && RowTotal(live.buckets, Sorted(live.buckets.Keys)) <= maxRows
      && (forall name :: name in live.buckets ==> Orderable(live.buckets[name], peer.buckets[name]))
    ensures r.Ok? ==> r.value == CarryOf(live, peer, Sorted(live.buckets.Keys))
    ensures r.Err? ==> r.error.RowLimit? || r.error.Unordered?
    ensures r.Err? ==> forall aligned, universe: seq<Text> :: Justified(r.error, live, peer, aligned, universe, maxRows)
  {
    hide Utf8, Ascending, Sorted, Orderable, BucketEffects, BucketRows, Refuses;
    var names := Sorted(live.buckets.Keys);
    assert names[..|names|] == names;
    var found := [];
    var rows := 0;
    for i := 0 to |names|
      invariant forall name :: name in names[..i] ==>
          Both(live, peer, name) && Orderable(live.buckets[name], peer.buckets[name])
      invariant found == CarryOf(live, peer, names[..i])
      invariant rows == RowTotal(live.buckets, names[..i]) <= maxRows
    {
      assert names[..i + 1] == names[..i] + [names[i]] && names[..i + 1][..i] == names[..i] && names[i] in names;
      var name := names[i];
      rows := rows + BucketRows(live.buckets[name]);
      RowTotalGrows(live.buckets, names, i + 1);
      if rows > maxRows {
        return Err(RowLimit);
      }
      var more := CheckBucket(live.buckets[name], peer.buckets[name], name);
      if more.Err? {
        return Err(Unordered(name, more.error.0, more.error.1));
      }
      found := found + more.value;
    }
    return Ok(found);
  }

  /** Whether the candidate may replace the live index and what the swap must carry, or a
      reason that holds. */
  method CheckCandidate(live: Index, peer: Stage, aligned: bool, universe: seq<Text>, maxRows: nat)
    returns (r: Result<seq<Effect>, Refusal>)
    ensures r.Ok? <==> Coverable(live, peer, aligned, universe, maxRows)
    ensures r.Ok? ==> r.value == CarryOf(live, peer, Sorted(live.buckets.Keys))
    ensures r.Err? ==> Justified(r.error, live, peer, aligned, universe, maxRows)
  {
    hide Utf8, Ascending, Sorted, Orderable, CarryOf, RowTotal, Justified;
    var _ :- CheckShape(live, peer, aligned, universe);
    r := CheckEffects(live, peer, maxRows);
  }

  // ----- applying it -----

  function ApplyEffect(d: Decoded, x: Effect): Decoded {
    if x.bucket !in d.buckets then d else
    var c := Cell(d.buckets[x.bucket], d.stats);
    var r := match x
      case RowEffect(_, key, entry) => InsertRow(c, key, entry)
      case DeleteEffect(_, key, at) =>
        RemoveRow(Cell(c.bucket.(gone := GoneRaise(c.bucket.gone, key, at)), c.total), key);
    Decoded(d.buckets[x.bucket := r.bucket], r.total)
  }

  function ApplyEffects(d: Decoded, xs: seq<Effect>): Decoded {
    if xs == [] then d else ApplyEffect(ApplyEffects(d, xs[..|xs| - 1]), xs[|xs| - 1])
  }

  function Chosen(xs: seq<Effect>, deletes: bool): seq<Effect> {
    if xs == [] then [] else
      var x := xs[|xs| - 1];
      Chosen(xs[..|xs| - 1], deletes) + if x.DeleteEffect? == deletes then [x] else []
  }

  lemma {:induction false} ApplyConcat(d: Decoded, xs: seq<Effect>, ys: seq<Effect>)
    ensures ApplyEffects(d, xs + ys) == ApplyEffects(ApplyEffects(d, xs), ys)
  {
    hide ApplyEffect;
    if ys == [] {
      assert xs + ys == xs;
    } else {
      ApplyConcat(d, xs, ys[..|ys| - 1]);
      assert (xs + ys)[..|xs + ys| - 1] == xs + ys[..|ys| - 1];
    }
  }

  lemma {:induction false} ChosenConcat(xs: seq<Effect>, ys: seq<Effect>, deletes: bool)
    ensures Chosen(xs + ys, deletes) == Chosen(xs, deletes) + Chosen(ys, deletes)
  {
    if ys == [] {
      assert xs + ys == xs;
    } else {
      ChosenConcat(xs, ys[..|ys| - 1], deletes);
      assert (xs + ys)[..|xs + ys| - 1] == xs + ys[..|ys| - 1];
    }
  }

  lemma {:induction false} ChosenAll(xs: seq<Effect>, deletes: bool)
    requires forall x :: x in xs ==> x.DeleteEffect? == deletes
    ensures Chosen(xs, deletes) == xs && Chosen(xs, !deletes) == []
  {
    if xs != [] {
      var n := |xs| - 1;
      assert xs == xs[..n] + [xs[n]] && xs[n] in xs;
      assert forall x :: x in xs[..n] ==> x in xs;
      ChosenAll(xs[..n], deletes);
    }
  }

  lemma {:induction false} EffectKinds(live: Bucket, peer: Bucket, name: Text, keys: seq<Text>)
    ensures forall x :: x in RowEffects(live, peer, name, keys) ==> x.RowEffect?
    ensures forall x :: x in DeleteEffects(live, peer, name, keys) ==> x.DeleteEffect?
  {
    hide CarriesRow, CarriesDelete;
    if keys != [] { EffectKinds(live, peer, name, keys[..|keys| - 1]); }
  }

  lemma {:induction false} ApplyRowsIs(d: Decoded, live: Bucket, peer: Bucket, name: Text, keys: seq<Text>)
    requires name in d.buckets
    ensures var c := CarryRows(Cell(d.buckets[name], d.stats), live, peer, keys);
      ApplyEffects(d, RowEffects(live, peer, name, keys)) == Decoded(d.buckets[name := c.bucket], c.total)
  {
    hide RowVerdict, InsertRow, Utf8;
    if keys == [] {
      assert d.buckets[name := d.buckets[name]] == d.buckets;
    } else {
      var n := |keys| - 1;
      ApplyRowsIs(d, live, peer, name, keys[..n]);
      var xs := RowEffects(live, peer, name, keys[..n]);
      if CarriesRow(live, peer, keys[n]) {
        ApplyOne(d, xs, RowEffect(name, keys[n], live.keys.rows[keys[n]]));
      } else {
        assert xs + [] == xs;
      }
    }
  }

  lemma ApplyOne(d: Decoded, xs: seq<Effect>, x: Effect)
    ensures ApplyEffects(d, xs + [x]) == ApplyEffect(ApplyEffects(d, xs), x)
  {
    hide ApplyEffect;
    assert (xs + [x])[..|xs|] == xs;
  }

  lemma {:induction false} ApplyDeletesIs(d: Decoded, live: Bucket, peer: Bucket, name: Text, keys: seq<Text>)
    requires name in d.buckets
    ensures var c := CarryDeletes(Cell(d.buckets[name], d.stats), live, peer, keys);
      ApplyEffects(d, DeleteEffects(live, peer, name, keys)) == Decoded(d.buckets[name := c.bucket], c.total)
  {
    hide TombstoneVerdict, RemoveRow, GoneRaise, Utf8;
    if keys == [] {
      assert d.buckets[name := d.buckets[name]] == d.buckets;
    } else {
      var n := |keys| - 1;
      ApplyDeletesIs(d, live, peer, name, keys[..n]);
      var xs := DeleteEffects(live, peer, name, keys[..n]);
      if CarriesDelete(live, peer, keys[n]) {
        ApplyOne(d, xs, DeleteEffect(name, keys[n], live.gone.rows[keys[n]]));
      } else {
        assert xs + [] == xs;
      }
    }
  }

  lemma BucketChosen(live: Bucket, peer: Bucket, name: Text)
    ensures Chosen(BucketEffects(live, peer, name), true) == DeleteEffects(live, peer, name, GoneOrder(live))
    ensures Chosen(BucketEffects(live, peer, name), false) == RowEffects(live, peer, name, KeyOrder(live))
  {
    hide RowEffects, DeleteEffects, KeyOrder, GoneOrder, Chosen;
    var (r, d) := (RowEffects(live, peer, name, KeyOrder(live)), DeleteEffects(live, peer, name, GoneOrder(live)));
    EffectKinds(live, peer, name, KeyOrder(live));
    EffectKinds(live, peer, name, GoneOrder(live));
    ChosenAll(r, false);
    ChosenAll(d, true);
    ChosenConcat(r, d, true);
    ChosenConcat(r, d, false);
  }

  lemma {:induction false} DeletesPass(d: Decoded, live: Index, peer: Stage, names: seq<Text>)
    requires forall name :: name in names ==> Both(live, peer, name) && name in d.buckets
    ensures ApplyEffects(d, Chosen(CarryOf(live, peer, names), true)) == PassDeletes(d, live, peer, names)
    ensures PassDeletes(d, live, peer, names).buckets.Keys == d.buckets.Keys
  {
    hide BucketEffects, DeleteEffects, CarryDeletes, GoneOrder, KeyOrder, ApplyEffect, Utf8;
    if names != [] {
      var n := |names| - 1;
      var name := names[n];
      DeletesPass(d, live, peer, names[..n]);
      var (l, p) := (live.buckets[name], peer.buckets[name]);
      BucketChosen(l, p, name);
      ChosenConcat(CarryOf(live, peer, names[..n]), BucketEffects(l, p, name), true);
      ApplyConcat(d, Chosen(CarryOf(live, peer, names[..n]), true), DeleteEffects(l, p, name, GoneOrder(l)));
      ApplyDeletesIs(PassDeletes(d, live, peer, names[..n]), l, p, name, GoneOrder(l));
    }
  }

  lemma {:induction false} RowsPass(d: Decoded, live: Index, peer: Stage, names: seq<Text>)
    requires forall name :: name in names ==> Both(live, peer, name) && name in d.buckets
    ensures ApplyEffects(d, Chosen(CarryOf(live, peer, names), false)) == PassRows(d, live, peer, names)
    ensures PassRows(d, live, peer, names).buckets.Keys == d.buckets.Keys
  {
    hide BucketEffects, RowEffects, CarryRows, GoneOrder, KeyOrder, ApplyEffect, Utf8;
    if names != [] {
      var n := |names| - 1;
      var name := names[n];
      RowsPass(d, live, peer, names[..n]);
      var (l, p) := (live.buckets[name], peer.buckets[name]);
      BucketChosen(l, p, name);
      ChosenConcat(CarryOf(live, peer, names[..n]), BucketEffects(l, p, name), false);
      ApplyConcat(d, Chosen(CarryOf(live, peer, names[..n]), false), RowEffects(l, p, name, KeyOrder(l)));
      ApplyRowsIs(PassRows(d, live, peer, names[..n]), l, p, name, KeyOrder(l));
    }
  }

  /** Deletes first, then rows, as two walks of the carried effects. */
  method ApplyCarry(d: Decoded, carry: seq<Effect>) returns (r: Decoded)
    ensures r == ApplyEffects(ApplyEffects(d, Chosen(carry, true)), Chosen(carry, false))
  {
    hide ApplyEffect, Utf8;
    r := d;
    for i := 0 to |carry|
      invariant r == ApplyEffects(d, Chosen(carry[..i], true))
    {
      assert carry[..i + 1][..i] == carry[..i];
      if carry[i].DeleteEffect? {
        ApplyOne(d, Chosen(carry[..i], true), carry[i]);
        r := ApplyEffect(r, carry[i]);
      } else {
        assert Chosen(carry[..i], true) + [] == Chosen(carry[..i], true);
      }
    }
    assert carry[..|carry|] == carry;
    ghost var deleted := r;
    for i := 0 to |carry|
      invariant r == ApplyEffects(deleted, Chosen(carry[..i], false))
    {
      assert carry[..i + 1][..i] == carry[..i];
      if carry[i].RowEffect? {
        ApplyOne(deleted, Chosen(carry[..i], false), carry[i]);
        r := ApplyEffect(r, carry[i]);
      } else {
        assert Chosen(carry[..i], false) + [] == Chosen(carry[..i], false);
      }
    }
  }

  // ----- bucket order -----

  function Alive(live: Index, names: seq<Text>): seq<Text> {
    if names == [] then [] else
      Alive(live, names[..|names| - 1]) + if names[|names| - 1] in live.buckets then [names[|names| - 1]] else []
  }

  lemma {:induction false} AliveIs(live: Index, names: seq<Text>)
    requires Ascending(names)
    ensures Ascending(Alive(live, names)) && forall k :: k in Alive(live, names) <==> k in names && k in live.buckets
  {
    hide Utf8, Less;
    if names != [] {
      var n := |names| - 1;
      AliveIs(live, names[..n]);
      assert names == names[..n] + [names[n]];
      var a := Alive(live, names[..n]);
      if names[n] in live.buckets {
        if a != [] { assert a[|a| - 1] in a; assert a[|a| - 1] in names[..n]; }
        AscendingExtend(a, names[n]);
      }
    }
  }

  /** Only live buckets have anything to carry, so the universe's order is theirs. */
  lemma {:induction false} PassesSkip(d: Decoded, live: Index, peer: Stage, names: seq<Text>)
    ensures PassDeletes(d, live, peer, names) == PassDeletes(d, live, peer, Alive(live, names))
    ensures PassRows(d, live, peer, names) == PassRows(d, live, peer, Alive(live, names))
  {
    hide CarryRows, CarryDeletes, GoneOrder, KeyOrder, Utf8;
    if names != [] {
      var n := |names| - 1;
      PassesSkip(d, live, peer, names[..n]);
      var a := Alive(live, names[..n]);
      assert (a + [names[n]])[..|a|] == a && a + [] == a;
    }
  }

  /** The two walks leave exactly what the two passes do. */
  lemma CarriedIs(live: Index, peer: Stage, universe: seq<Text>)
    requires Ascending(universe) && forall name :: name in live.buckets ==> name in universe && name in peer.buckets
    requires forall name :: name in live.buckets ==> live.buckets[name].generation + 1 < U64_LIMIT
    ensures var names := Sorted(live.buckets.Keys);
      var carry := CarryOf(live, peer, names);
      ApplyEffects(ApplyEffects(AdoptAll(live, peer), Chosen(carry, true)), Chosen(carry, false)) ==
        Carried(live, peer, universe)
  {
    hide Adopted, CarryOf, Chosen, ApplyEffects, PassDeletes, PassRows, Sorted, Ascending, Utf8;
    var names := Sorted(live.buckets.Keys);
    AliveIs(live, universe);
    SortedIs(live.buckets.Keys, Alive(live, universe));
    var d := AdoptAll(live, peer);
    PassesSkip(d, live, peer, universe);
    DeletesPass(d, live, peer, names);
    PassesSkip(PassDeletes(d, live, peer, names), live, peer, universe);
    RowsPass(PassDeletes(d, live, peer, names), live, peer, names);
  }
}
