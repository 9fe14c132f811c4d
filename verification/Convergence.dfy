/** Last-writer-wins convergence: outside a rebuild and with no sweep, the rows and
    tombstones a run of puts and deletes leaves depend on what it holds, not on its order. */
module Convergence {
  import opened Base
  import opened Entries
  import opened Rows
  import opened Buckets
  import opened Index
  import opened Machine
  import opened Soundness
  import opened Reachable
  import opened KeyHistory

  predicate PlainStep(s: Index, op: Op) {
    match op
    case PutOp(_, _, _, _, id, _) => !Suppressed(s, id)
    case DelOp(_, _, _, _, id, _) => !Suppressed(s, id) && Swept(s, op) == BucketOf(s, op.bucket)
    case _ => false
  }

  /** Only puts and deletes, none of them a duplicate, and no sweep due. */
  predicate Plain(s: Index, ops: seq<Op>) {
    ops == [] || (Plain(s, ops[..|ops| - 1]) && PlainStep(Run(s, ops[..|ops| - 1]), ops[|ops| - 1]))
  }

  predicate PutsHere(op: Op, name: Text, key: Text) { op.PutOp? && op.bucket == name && op.key == key }

  predicate DeletesHere(op: Op, name: Text, key: Text) { op.DelOp? && op.bucket == name && op.key == key }

  function LatestDelete(start: Option<Time>, ops: seq<Op>, name: Text, key: Text): Option<Time> {
    if ops == [] then start else
      var rest := LatestDelete(start, ops[..|ops| - 1], name, key);
      if DeletesHere(ops[|ops| - 1], name, key) then Later(rest, ops[|ops| - 1].at) else rest
  }

  function LatestPut(start: Option<Entry>, ops: seq<Op>, name: Text, key: Text): Option<Entry> {
    if ops == [] then start else
      var rest := LatestPut(start, ops[..|ops| - 1], name, key);
      var op := ops[|ops| - 1];
      if !PutsHere(op, name, key) || (rest.Some? && rest.value.lastModified > op.entry.lastModified) then rest
      else Some(op.entry)
  }

  /** A put stands while no delete reaches it. */
  function Standing(p: Option<Entry>, t: Option<Time>): Option<Entry> {
    if p.Some? && t.Some? && t.value >= p.value.lastModified then None else p
  }

  ghost predicate Settled(s: Index, t: Index, ops: seq<Op>, name: Text, key: Text) {
    var (b, r) := (BucketOf(s, name), BucketOf(t, name));
    && r.rebuild.None?
    && TombOf(r, key) == LatestDelete(TombOf(b, key), ops, name, key)
    && RowOf(r, key) == Standing(LatestPut(RowOf(b, key), ops, name, key), LatestDelete(TombOf(b, key), ops, name, key))
  }

  lemma SettledStep(v: KeyView, ev: KeyEvent, p: Option<Entry>, t: Option<Time>)
    requires !v.touched && v.tomb == t && v.row == Standing(p, t)
    ensures (ev.Overwritten? || ev.Observed?) ==>
              (var r := Happen(v, false, ev);
               var p' := if p.Some? && p.value.lastModified > ev.entry.lastModified then p else Some(ev.entry);
               r.tomb == t && r.row == Standing(p', t))
    ensures ev.Deleted? ==>
              (var r := Happen(v, false, ev); r.tomb == Later(t, ev.at) && r.row == Standing(p, Later(t, ev.at)))
  {}

  /** The closed form: the tombstone is the latest delete, and the row the latest put where
      that is strictly later. */
  lemma {:induction false} ClosedForm(s: Index, ops: seq<Op>, name: Text, key: Text)
    requires AllSound(s.buckets) && BucketOf(s, name).rebuild.None? && Plain(s, ops)
    ensures Settled(s, Run(s, ops), ops, name, key)
  {
    hide Step, AllSound, Settled, Plain, Utf8;
    if ops == [] {
      NothingSettled(s, name, key);
    } else {
      var n := |ops| - 1;
      assert Plain(s, ops[..n]) && PlainStep(Run(s, ops[..n]), ops[n]) by { PlainSplits(s, ops); }
      ClosedForm(s, ops[..n], name, key);
      RunSound(s, ops[..n]);
      SettledNext(s, Run(s, ops[..n]), ops, name, key);
    }
  }

  lemma PlainSplits(s: Index, ops: seq<Op>)
    requires ops != [] && Plain(s, ops)
    ensures Plain(s, ops[..|ops| - 1]) && PlainStep(Run(s, ops[..|ops| - 1]), ops[|ops| - 1])
  {
    hide Run, PlainStep;
  }

  lemma NothingSettled(s: Index, name: Text, key: Text)
    requires AllSound(s.buckets) && BucketOf(s, name).rebuild.None?
    ensures Settled(s, s, [], name, key)
  {
    hide Tabled, Owned, Utf8;
    BucketOfSound(s, name);
  }

  lemma SettledNext(s: Index, now: Index, ops: seq<Op>, name: Text, key: Text)
    requires ops != [] && AllSound(now.buckets) && PlainStep(now, ops[|ops| - 1])
    requires Settled(s, now, ops[..|ops| - 1], name, key)
    ensures Settled(s, Step(now, ops[|ops| - 1]), ops, name, key)
  {
    hide Step, AllSound, Duplicate, Happen, Utf8, Unfold, Pruned;
    var n := |ops| - 1;
    var op := ops[n];
    var r := BucketOf(now, name);
    assert Marked(r) by { SoundMarked(now, name); }
    StepFollows(now, op, name, key);
    var v := ViewOf(r, key);
    var evs := EventsOf(now, op, name, key);
    UnfoldNone(v, false);
    if evs != [] {
      var ev := evs[0];
      assert evs == [ev];
      UnfoldOne(v, false, ev);
      SettledStep(v, ev, LatestPut(RowOf(BucketOf(s, name), key), ops[..n], name, key),
                  LatestDelete(TombOf(BucketOf(s, name), key), ops[..n], name, key));
    }
  }

  lemma SoundMarked(s: Index, name: Text)
    requires AllSound(s.buckets)
    ensures Marked(BucketOf(s, name))
  {
    hide Exclusive, Tabled;
    BucketOfSound(s, name);
  }

  // ----- any order -----

  /** An entry at the head of a key's history: no put of it is later, the held row neither,
      and every delete is earlier. */
  ghost predicate Stands(s: Index, ops: seq<Op>, name: Text, key: Text, e: Entry) {
    var (row, tomb) := (RowOf(BucketOf(s, name), key), TombOf(BucketOf(s, name), key));
    && (row.Some? ==> row.value.lastModified <= e.lastModified)
    && (tomb.Some? ==> tomb.value < e.lastModified)
    && (forall x :: x in ops && PutsHere(x, name, key) ==> x.entry.lastModified <= e.lastModified)
    && (forall x :: x in ops && DeletesHere(x, name, key) ==> x.at < e.lastModified)
  }

  predicate TiedPuts(x: Op, y: Op, name: Text, key: Text) {
    PutsHere(x, name, key) && PutsHere(y, name, key) && x.entry.lastModified == y.entry.lastModified
  }

  /** Two puts of the key that disagree at one time are both overtaken. */
  ghost predicate Decided(s: Index, ops: seq<Op>, name: Text, key: Text) {
    forall x, y :: x in ops && y in ops && TiedPuts(x, y, name, key) && Stands(s, ops, name, key, x.entry) ==>
      x.entry == y.entry
  }

  /** The latest put: of the operations, unless the row held before is strictly later. */
  ghost predicate IsLatestPut(p: Option<Entry>, start: Option<Entry>, ops: seq<Op>, name: Text, key: Text) {
    && (p.None? <==> start.None? && forall x :: x in ops ==> !PutsHere(x, name, key))
    && (p.Some? ==>
          && (start.Some? ==> start.value.lastModified <= p.value.lastModified)
          && (forall x :: x in ops && PutsHere(x, name, key) ==> x.entry.lastModified <= p.value.lastModified)
          && (|| (exists x :: x in ops && PutsHere(x, name, key) && x.entry == p.value)
              || (p == start && forall x :: x in ops && PutsHere(x, name, key) ==>
                  x.entry.lastModified < p.value.lastModified)))
  }

  lemma {:induction false} LatestPutIs(start: Option<Entry>, ops: seq<Op>, name: Text, key: Text)
    ensures IsLatestPut(LatestPut(start, ops, name, key), start, ops, name, key)
  {
    hide Utf8;
    if ops != [] {
      var n := |ops| - 1;
      LatestPutIs(start, ops[..n], name, key);
      assert ops == ops[..n] + [ops[n]];
    }
  }

  ghost predicate IsLatestDelete(t: Option<Time>, start: Option<Time>, ops: seq<Op>, name: Text, key: Text) {
    && (t.None? <==> start.None? && forall x :: x in ops ==> !DeletesHere(x, name, key))
    && (t.Some? ==>
          && (t == start || exists x :: x in ops && DeletesHere(x, name, key) && x.at == t.value)
          && (start.Some? ==> start.value <= t.value)
          && (forall x :: x in ops && DeletesHere(x, name, key) ==> x.at <= t.value))
  }

  lemma {:induction false} LatestDeleteIs(start: Option<Time>, ops: seq<Op>, name: Text, key: Text)
    ensures IsLatestDelete(LatestDelete(start, ops, name, key), start, ops, name, key)
  {
    hide Utf8;
    if ops != [] {
      var n := |ops| - 1;
      LatestDeleteIs(start, ops[..n], name, key);
      assert ops == ops[..n] + [ops[n]];
    }
  }

  lemma OneLatestDelete(start: Option<Time>, x: seq<Op>, y: seq<Op>, name: Text, key: Text)
    requires forall op :: op in x <==> op in y
    ensures LatestDelete(start, x, name, key) == LatestDelete(start, y, name, key)
  {
    LatestDeleteIs(start, x, name, key);
    LatestDeleteIs(start, y, name, key);
    hide LatestDelete, Utf8;
  }

  /** The row a run leaves: the latest put, where it stands. */
  function FinalRow(s: Index, ops: seq<Op>, name: Text, key: Text): Option<Entry> {
    var b := BucketOf(s, name);
    Standing(LatestPut(RowOf(b, key), ops, name, key), LatestDelete(TombOf(b, key), ops, name, key))
  }

  lemma OneFinalRow(s: Index, x: seq<Op>, y: seq<Op>, name: Text, key: Text)
    requires (forall op :: op in x <==> op in y) && Decided(s, x, name, key)
    ensures FinalRow(s, x, name, key) == FinalRow(s, y, name, key)
  {
    var b := BucketOf(s, name);
    var (start, tomb) := (RowOf(b, key), TombOf(b, key));
    LatestPutIs(start, x, name, key);
    LatestPutIs(start, y, name, key);
    LatestDeleteIs(tomb, x, name, key);
    OneLatestDelete(tomb, x, y, name, key);
    var (p, q, t) := (LatestPut(start, x, name, key), LatestPut(start, y, name, key), LatestDelete(tomb, x, name, key));
    hide LatestPut, LatestDelete, BucketOf, RowOf, TombOf, Utf8;
    if p.Some? && q.Some? {
      assert p.value.lastModified == q.value.lastModified;
      if Standing(p, t).Some? { assert Stands(s, x, name, key, p.value); }
    }
  }

  ghost predicate SameKey(a: Index, b: Index, name: Text, key: Text) {
    && RowOf(BucketOf(a, name), key) == RowOf(BucketOf(b, name), key)
    && TombOf(BucketOf(a, name), key) == TombOf(BucketOf(b, name), key)
  }

  /** Any two orders of the same puts and deletes leave every key of the bucket with the
      same row and the same tombstone. */
  lemma Converges(s: Index, x: seq<Op>, y: seq<Op>, name: Text, key: Text)
    requires AllSound(s.buckets) && BucketOf(s, name).rebuild.None?
    requires multiset(x) == multiset(y) && Plain(s, x) && Plain(s, y) && Decided(s, x, name, key)
    ensures SameKey(Run(s, x), Run(s, y), name, key)
  {
    hide LatestPut, LatestDelete, Run, AllSound, Plain, Decided, Standing;
    ClosedForm(s, x, name, key);
    ClosedForm(s, y, name, key);
    forall op ensures op in x <==> op in y { assert op in multiset(x) <==> op in multiset(y); }
    OneFinalRow(s, x, y, name, key);
    OneLatestDelete(TombOf(BucketOf(s, name), key), x, y, name, key);
  }

  // ----- exactly when -----

  /** Each order of the operations is one of plain puts and deletes. */
  ghost predicate AlwaysPlain(s: Index, ops: seq<Op>) {
    forall y: seq<Op> :: multiset(y) == multiset(ops) ==> Plain(s, y)
  }

  ghost predicate AllAgree(s: Index, ops: seq<Op>, name: Text, key: Text) {
    forall y: seq<Op> :: multiset(y) == multiset(ops) ==> SameKey(Run(s, y), Run(s, ops), name, key)
  }

  /** Moving one operation to the end is another order of the same ones. */
  lemma MovedLast(ops: seq<Op>, i: nat)
    requires i < |ops|
    ensures multiset(ops[..i] + ops[i + 1..] + [ops[i]]) == multiset(ops)
    ensures forall op :: op in ops[..i] + ops[i + 1..] ==> op in ops
  {
    assert ops == ops[..i] + [ops[i]] + ops[i + 1..];
  }

  /** A put that stands is the row of an order that applies it last. */
  lemma LastStands(s: Index, ops: seq<Op>, i: nat, name: Text, key: Text) returns (order: seq<Op>)
    requires AllSound(s.buckets) && BucketOf(s, name).rebuild.None? && AlwaysPlain(s, ops)
    requires i < |ops| && PutsHere(ops[i], name, key) && Stands(s, ops, name, key, ops[i].entry)
    ensures multiset(order) == multiset(ops) && RowOf(BucketOf(Run(s, order), name), key) == Some(ops[i].entry)
  {
    hide Run, AllSound, Plain, Utf8;
    var rest := ops[..i] + ops[i + 1..];
    order := rest + [ops[i]];
    MovedLast(ops, i);
    assert Plain(s, order);
    ClosedForm(s, order, name, key);
    var b := BucketOf(s, name);
    LatestPutIs(RowOf(b, key), rest, name, key);
    LatestDeleteIs(TombOf(b, key), rest, name, key);
    assert order[..|rest|] == rest && order[|rest|] == ops[i];
  }

  /** All orders of a key's puts and deletes agree if and only if no two puts that disagree at
      one time both stand. The row held before never matters: a put at its time replaces it. */
  lemma ConvergesExactly(s: Index, ops: seq<Op>, name: Text, key: Text)
    requires AllSound(s.buckets) && BucketOf(s, name).rebuild.None? && AlwaysPlain(s, ops)
    ensures AllAgree(s, ops, name, key) <==> Decided(s, ops, name, key)
  {
    hide Run, AllSound, Plain, Stands, BucketOf, RowOf, TombOf, Utf8;
    if Decided(s, ops, name, key) {
      forall y: seq<Op> | multiset(y) == multiset(ops) ensures SameKey(Run(s, y), Run(s, ops), name, key) {
        assert Plain(s, y) && Plain(s, ops);
        Converges(s, ops, y, name, key);
      }
    } else {
      var x, y :|
        x in ops && y in ops && TiedPuts(x, y, name, key) && Stands(s, ops, name, key, x.entry) && x.entry != y.entry;
      assert Stands(s, ops, name, key, y.entry) by { StandsByTime(s, ops, name, key, x.entry, y.entry); }
      var i :| 0 <= i < |ops| && ops[i] == x;
      var j :| 0 <= j < |ops| && ops[j] == y;
      var a := LastStands(s, ops, i, name, key);
      var b := LastStands(s, ops, j, name, key);
      assert !SameKey(Run(s, a), Run(s, ops), name, key) || !SameKey(Run(s, b), Run(s, ops), name, key);
    }
  }

  lemma StandsByTime(s: Index, ops: seq<Op>, name: Text, key: Text, a: Entry, b: Entry)
    requires Stands(s, ops, name, key, a) && a.lastModified == b.lastModified
    ensures Stands(s, ops, name, key, b)
  {}

  /** Puts and deletes that come from no peer and sweep nothing are plain in every order. */
  lemma {:induction false} OwnIsPlain(s: Index, ops: seq<Op>)
    requires forall op :: op in ops ==> (op.PutOp? || (op.DelOp? && !op.sweep)) && op.id.None?
    ensures Plain(s, ops)
  {
    hide Run, Utf8;
    if ops != [] {
      var n := |ops| - 1;
      assert ops == ops[..n] + [ops[n]] && ops[n] in ops;
      OwnIsPlain(s, ops[..n]);
    }
  }

  lemma OwnIsAlwaysPlain(s: Index, ops: seq<Op>)
    requires forall op :: op in ops ==> (op.PutOp? || (op.DelOp? && !op.sweep)) && op.id.None?
    ensures AlwaysPlain(s, ops)
  {
    hide Plain;
    forall y: seq<Op> | multiset(y) == multiset(ops) ensures Plain(s, y) {
      forall op | op in y ensures op in ops { assert op in multiset(y); }
      OwnIsPlain(s, y);
    }
  }

  /** The tie itself: of two puts at one time the one applied last stands. */
  lemma LastOfATieStands(name: Text, key: Text, a: Entry, b: Entry)
    requires a.lastModified == b.lastModified
    ensures var (x, y) := (PutOp(name, key, a, true, None, true), PutOp(name, key, b, true, None, true));
      && RowOf(BucketOf(Run(EMPTY_INDEX, [x, y]), name), key) == Some(b)
      && RowOf(BucketOf(Run(EMPTY_INDEX, [y, x]), name), key) == Some(a)
  {
    var (x, y) := (PutOp(name, key, a, true, None, true), PutOp(name, key, b, true, None, true));
    TwoPuts(x, y, name, key);
    TwoPuts(y, x, name, key);
    hide Run;
  }

  lemma TwoPuts(x: Op, y: Op, name: Text, key: Text)
    requires PutsHere(x, name, key) && PutsHere(y, name, key) && x.id.None? && y.id.None?
    requires x.entry.lastModified == y.entry.lastModified
    ensures RowOf(BucketOf(Run(EMPTY_INDEX, [x, y]), name), key) == Some(y.entry)
  {
    hide Step, Utf8;
    assert [x, y][..1] == [x] && [x][..0] == [];
    OwnIsPlain(EMPTY_INDEX, [x, y]);
    ClosedForm(EMPTY_INDEX, [x, y], name, key);
    assert LatestPut(None, [], name, key) == None && LatestPut(None, [x], name, key) == Some(x.entry);
    assert LatestDelete(None, [], name, key) == None && LatestDelete(None, [x], name, key) == None;
  }
}
