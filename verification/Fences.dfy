/** Fence ownership over whole runs: which operations end a key's uncertainty, and why an
    outdated resolution never speaks for a key again. */
module Fences {
  import opened Base
  import opened Entries
  import opened Rows
  import opened Buckets
  import opened Index
  import opened Install
  import opened InstallSafety
  import opened Machine
  import opened Soundness
  import opened Reachable
  import opened KeyHistory
  import Delta

  predicate Removes(op: Op, name: Text) { op.RemoveOp? && op.bucket == name }

  function FenceOf(s: Index, name: Text, key: Text): Option<nat> { ViewOf(BucketOf(s, name), key).fence }

  /** The only ways a fence closes: the resolution holding its own token, and a definitive
      put or delete the index accepts. */
  predicate Closes(s: Index, op: Op, name: Text, key: Text) {
    match op
    case ResolveOp(b, k, token, _) => b == name && k == key && FenceOf(s, name, key) == Some(token)
    case PutOp(b, k, e, definitive, id, _) =>
      b == name && k == key && definitive && !Suppressed(s, id)
        && PutAccepted(BucketOf(s, name), key, e.lastModified, true)
    case DelOp(b, k, at, _, id, _) => b == name && k == key && !Suppressed(s, id) && DelAccepted(Swept(s, op), key, at)
    case _ => false
  }

  predicate Opens(s: Index, op: Op, name: Text, key: Text) {
    op.FenceOp? && op.bucket == name && op.key == key && (op.own || !Suppressed(s, op.id))
  }

  function EpochOf(s: Index, name: Text): nat { BucketOf(s, name).epoch }

  /** The fence of a key after one operation. */
  function FenceAfter(s: Index, op: Op, name: Text, key: Text): Option<nat> {
    if Opens(s, op, name, key) then Some(EpochOf(s, name) + 1)
    else if Closes(s, op, name, key) then None
    else FenceOf(s, name, key)
  }

  lemma TurnKeepsFences(s: Index, op: Op, name: Text)
    requires Turns(s, op, name) && !Removes(op, name) && AllSound(s.buckets)
    ensures BucketOf(Step(s, op), name).fences == BucketOf(s, name).fences
    ensures BucketOf(Step(s, op), name).epoch == BucketOf(s, name).epoch
  {
    hide AllSound, Utf8, InstallImage;
    match op {
      case InstallOp(_, _, _, _, _) => InstallTurns(s, op, name);
      case DiscardOp(_) => DiscardKeepsFences(s, op, name);
      case _ => hide Replace;
    }
  }

  lemma GapKeepsBuckets(s: Index, missed: NativeCut)
    ensures SkipGap(s, missed).buckets == s.buckets
  {}

  lemma DiscardKeepsFences(s: Index, op: Op, name: Text)
    requires op.DiscardOp?
    ensures BucketOf(Step(s, op), name).fences == BucketOf(s, name).fences
    ensures BucketOf(Step(s, op), name).epoch == BucketOf(s, name).epoch
  {
    hide StatsWithout, SkipGap, Utf8;
    GapKeepsBuckets(s, op.missed);
  }

  /** An install refuses and changes nothing, or moves every bucket it holds to its next
      generation with no rebuild running and its fences as they were. */
  ghost predicate InstallTurn(s: Index, t: Index, name: Text) {
    var (b, r) := (BucketOf(s, name), BucketOf(t, name));
    t == s || (&& b.rebuild.None? && r.rebuild.None? && r.fences == b.fences && r.epoch == b.epoch
               && (if name in t.buckets then r.generation == NextGeneration(b.generation) else r == b))
  }

  lemma InstallTurns(s: Index, op: Op, name: Text)
    requires op.InstallOp? && AllSound(s.buckets)
    ensures InstallTurn(s, Step(s, op), name)
  {
    hide Sound, Staged, InstallStage, AllPrivate, RowOf, TombOf, Utf8;
    var r := Staged(op.image, op.effects, op.caps);
    if r.Ok? {
      StagedPrivate(op.image, op.effects, op.caps);
      StageTurns(s, r.value, op.aligned, op.universe, op.caps.rows, name);
    }
  }

  lemma StageTurns(s: Index, peer: Stage, aligned: bool, universe: seq<Text>, maxRows: nat, name: Text)
    requires AllSound(s.buckets) && AllPrivate(peer.buckets)
    ensures InstallTurn(s, InstallStage(s, peer, aligned, universe, maxRows), name)
  {
    hide Sound, Carried, AllPrivate, Orderable, RowTotal, Utf8, InstalledRow, InstalledTomb;
    if Installable(s, peer, aligned, universe, maxRows) { InstallIs(s, peer, universe, maxRows); }
  }

  lemma EpochMoves(s: Index, op: Op, name: Text)
    requires !Turns(s, op, name)
    ensures EpochOf(Step(s, op), name) == EpochOf(s, name) + if exists key :: Opens(s, op, name, key) then 1 else 0
  {
    hide Utf8, Duplicate, EpochOf, Step, Turns;
    match op {
      case PutOp(_, _, _, _, _, _) => PutEpoch(s, op, name);
      case DelOp(_, _, _, _, _, _) => DelEpoch(s, op, name);
      case FenceOp(_, _, _, _) => FenceEpoch(s, op, name);
      case CompleteOp(_, _, _, _) => RowEpoch(s, op, name);
      case ResolveOp(_, _, _, _) => RowEpoch(s, op, name);
      case ListOp(_, _, _) => PageEpoch(s, op, name);
      case ResyncOp(_) => OtherEpoch(s, op, name);
      case RemoveOp(_) => OtherEpoch(s, op, name);
      case FinishOp(_, _) => OtherEpoch(s, op, name);
      case InstallOp(_, _, _, _, _) => OtherEpoch(s, op, name);
      case DiscardOp(_) => OtherEpoch(s, op, name);
      case _ => FeedStepSound(s, op); SameEpoch(s, Step(s, op), name);
    }
  }

  lemma SameEpoch(s: Index, t: Index, name: Text)
    requires t.buckets == s.buckets
    ensures EpochOf(t, name) == EpochOf(s, name)
  {}

  lemma OtherEpoch(s: Index, op: Op, name: Text)
    requires !Turns(s, op, name) && (op.ResyncOp? || op.RemoveOp? || op.FinishOp? || op.InstallOp? || op.DiscardOp?)
    ensures EpochOf(Step(s, op), name) == EpochOf(s, name)
  {
    hide Utf8, Replace, Resynced, Finished, InstallImage, DiscardForGap;
  }

  lemma FenceEpoch(s: Index, op: Op, name: Text)
    requires op.FenceOp?
    ensures EpochOf(Step(s, op), name) == EpochOf(s, name) + if exists key :: Opens(s, op, name, key) then 1 else 0
  {
    hide Utf8, Duplicate, NotedIf;
    if op.bucket == name && (op.own || !Suppressed(s, op.id)) { assert Opens(s, op, name, op.key); }
    SameBuckets(s, op.id, name, Delta.Noop, true);
    SameBuckets(NotedIf(s, op.id), op.id, name, Delta.Noop, true);
  }

  lemma RowEpoch(s: Index, op: Op, name: Text)
    requires op.CompleteOp? || op.ResolveOp?
    ensures EpochOf(Step(s, op), name) == EpochOf(s, name)
  {
    hide Utf8, Replace, GoneRaise, GoneRemove, KeyRemove, KeyInsert, CompleteCell, Journaled;
    if op.CompleteOp? {
      CompleteIs(s, op, name);
      CompleteViews(Cell(BucketOf(s, name), s.stats), op.key, op.fill, op.key);
      hide Step;
    }
  }

  lemma PageEpoch(s: Index, op: Op, name: Text)
    requires op.ListOp?
    ensures EpochOf(Step(s, op), name) == EpochOf(s, name)
  {
    hide Utf8, ListRows;
    SameBuckets(s, None, name, Delta.Noop, true);
    PageViews(Cell(BucketOf(s, name), s.stats), op.rows, name);
  }

  lemma PutEpoch(s: Index, op: Op, name: Text)
    requires op.PutOp?
    ensures EpochOf(Step(s, op), name) == EpochOf(s, name)
  {
    hide PutAccepted, Duplicate, Recorded, WellFormed, Contiguous, Utf8, InsertRow;
    var s1 := Opened(NotedIf(s, op.id), op.bucket);
    SameBuckets(s, op.id, op.bucket, Delta.Noop, op.admitted);
    SameBuckets(NotedIf(s, op.id), op.id, op.bucket, Delta.Noop, op.admitted);
    PutCellEpoch(CellOf(s1, op.bucket), op.key, op.entry, op.definitive);
    var s2 := WithCell(s1, op.bucket, PutCell(CellOf(s1, op.bucket), op.key, op.entry, op.definitive));
    SameBuckets(s2, op.id, op.bucket, Delta.Put(op.bucket, op.key, op.entry), op.admitted);
    hide Journaled, JournaledNoop, NotedIf, Opened, PutCell;
  }

  lemma PutCellEpoch(c: Cell, key: Text, e: Entry, definitive: bool)
    ensures PutCell(c, key, e, definitive).bucket.epoch == c.bucket.epoch
  {
    hide PutAccepted, Replace, GoneRemove, KeyInsert;
  }

  lemma DelEpoch(s: Index, op: Op, name: Text)
    requires op.DelOp?
    ensures EpochOf(Step(s, op), name) == EpochOf(s, name)
  {
    hide Step, Duplicate, DelCell;
    if Suppressed(s, op.id) {
      SuppressedIdle(s, op);
    } else {
      DelIs(s, op, name);
      DelCellEpoch(Cell(BucketOf(s, name), s.stats), op.key, op.at, op.sweep && s.capture.None?);
    }
  }

  lemma DelCellEpoch(c: Cell, key: Text, ts: Time, sweep: bool)
    ensures DelCell(c, key, ts, sweep).bucket.epoch == c.bucket.epoch
  {
    hide DelAccepted, Replace, GoneInsert, GoneRaise, KeyRemove, Sweep;
  }

  /** One operation's whole effect on one key's fence, and on the epoch tokens come from. */
  lemma FenceSteps(s: Index, op: Op, name: Text, key: Text)
    requires AllSound(s.buckets) && !Removes(op, name)
    ensures FenceOf(Step(s, op), name, key) == FenceAfter(s, op, name, key)
    ensures EpochOf(Step(s, op), name) >= EpochOf(s, name)
    ensures Opens(s, op, name, key) ==> EpochOf(Step(s, op), name) == EpochOf(s, name) + 1
  {
    if Turns(s, op, name) {
      TurnKeepsFences(s, op, name);
      hide Step, AllSound;
    } else {
      EpochMoves(s, op, name);
      FenceEvents(s, op, name, key);
      hide Step, AllSound, FenceOf;
    }
  }

  lemma SoundFollows(s: Index, op: Op, name: Text, key: Text)
    requires AllSound(s.buckets) && !Turns(s, op, name)
    ensures Follows(BucketOf(s, name), BucketOf(Step(s, op), name), key, EventsOf(s, op, name, key))
  {
    hide Step, Turns, EventsOf, Follows, Exclusive, Tabled;
    BucketOfSound(s, name);
    StepFollows(s, op, name, key);
  }

  lemma FenceEvents(s: Index, op: Op, name: Text, key: Text)
    requires AllSound(s.buckets) && !Turns(s, op, name)
    ensures FenceOf(Step(s, op), name, key) == FenceAfter(s, op, name, key)
  {
    hide Step, AllSound, Turns, EventsOf, FenceAfter, Unfold, RowOf, TombOf;
    SoundFollows(s, op, name, key);
    if op.DelOp? { DelFenceAfter(s, op, name, key); }
    else if op.ListOp? { PageFenceAfter(s, op, name, key); }
    else { OneFenceAfter(s, op, name, key); }
  }

  function Unfolded(s: Index, op: Op, name: Text, key: Text): KeyView {
    Unfold(ViewOf(BucketOf(s, name), key), BucketOf(s, name).rebuild.Some?, EventsOf(s, op, name, key))
  }

  lemma DelFenceAfter(s: Index, op: Op, name: Text, key: Text)
    requires op.DelOp?
    ensures Unfolded(s, op, name, key).fence == FenceAfter(s, op, name, key)
  {
    hide Duplicate, Utf8, Happen, DelAccepted, Pruned;
    if op.bucket == name && !Suppressed(s, op.id) { DelFence(s, op, key); }
  }

  lemma PageFenceAfter(s: Index, op: Op, name: Text, key: Text)
    requires op.ListOp?
    ensures Unfolded(s, op, name, key).fence == FenceAfter(s, op, name, key)
  {
    hide Utf8, Happen, PageEvents;
    PageKeepsFence(ViewOf(BucketOf(s, name), key), BucketOf(s, name).rebuild.Some?, op.rows, key);
  }

  lemma OneFenceAfter(s: Index, op: Op, name: Text, key: Text)
    requires !op.DelOp? && !op.ListOp?
    ensures Unfolded(s, op, name, key).fence == FenceAfter(s, op, name, key)
  {
    hide Duplicate, Utf8, Happen, PutAccepted, Pruned, Unfold, RowOf, TombOf;
    var b := BucketOf(s, name);
    var evs := EventsOf(s, op, name, key);
    assert Unfold(ViewOf(b, key), b.rebuild.Some?, []) == ViewOf(b, key) by {
      UnfoldNone(ViewOf(b, key), b.rebuild.Some?);
    }
    if evs != [] {
      var ev := evs[0];
      assert evs == [ev];
      UnfoldOne(ViewOf(b, key), b.rebuild.Some?, ev);
      EventFence(b, key, ev);
    }
  }

  /** Which events close a fence. */
  lemma EventFence(b: Bucket, key: Text, ev: KeyEvent)
    ensures Happen(ViewOf(b, key), b.rebuild.Some?, ev).fence ==
      match ev
      case Fenced(token) => Some(token)
      case Confirmed(_) => None
      case Overwritten(e) => if PutAccepted(b, key, e.lastModified, true) then None else ViewOf(b, key).fence
      case Deleted(at) => if DelAccepted(b, key, at) then None else ViewOf(b, key).fence
      case _ => ViewOf(b, key).fence
  {
    hide Utf8, Filled, SameVersion;
  }

  lemma DelFence(s: Index, op: Op, key: Text)
    requires op.DelOp? && !Suppressed(s, op.id)
    ensures var b := BucketOf(s, op.bucket);
      Unfold(ViewOf(b, key), b.rebuild.Some?, EventsOf(s, op, op.bucket, key)).fence
      == if op.key == key && DelAccepted(Swept(s, op), key, op.at) then None else ViewOf(b, key).fence
  {
    hide Duplicate, Utf8, Happen, Unfold, DelAccepted, Pruned, ViewOf;
    var b := BucketOf(s, op.bucket);
    var (v, active) := (ViewOf(b, key), b.rebuild.Some?);
    var p := Swept(s, op);
    PrunedViews(b, op.at, op.sweep && s.capture.None?, key);
    EventFence(b, key, Forgotten);
    EventFence(p, key, Deleted(op.at));
    var forgot := if key in b.gone.rows && key !in p.gone.rows then [Forgotten] else [];
    assert forgot != [] ==> forgot == [] + [Forgotten];
    UnfoldNone(v, active);
    UnfoldOne(v, active, Forgotten);
    assert Unfold(v, active, forgot) == ViewOf(p, key);
    OneMore(v, active, forgot, Deleted(op.at));
    assert forgot + [] == forgot;
  }

  lemma RowKeepsFence(v: KeyView, active: bool, e: Entry)
    ensures Happen(v, active, OnPage(e)).fence == v.fence
  {}

  lemma {:induction false} PageKeepsFence(v: KeyView, active: bool, rows: seq<Listed>, key: Text)
    ensures Unfold(v, active, PageEvents(rows, key)).fence == v.fence
  {
    hide Happen, Utf8;
    if rows != [] {
      var n := |rows| - 1;
      PageKeepsFence(v, active, rows[..n], key);
      RowKeepsFence(Unfold(v, active, PageEvents(rows[..n], key)), active, rows[n].entry);
      OneMore(v, active, PageEvents(rows[..n], key), OnPage(rows[n].entry));
      assert PageEvents(rows[..n], key) + [] == PageEvents(rows[..n], key);
    }
  }

  // ----- runs -----

  predicate Keeps(ops: seq<Op>, name: Text) { forall i :: 0 <= i < |ops| ==> !Removes(ops[i], name) }

  lemma {:induction false} EpochGrows(s: Index, ops: seq<Op>, name: Text)
    requires AllSound(s.buckets) && Keeps(ops, name)
    ensures EpochOf(Run(s, ops), name) >= EpochOf(s, name)
  {
    hide Step, AllSound, EpochOf;
    if ops != [] {
      var n := |ops| - 1;
      EpochGrows(s, ops[..n], name);
      RunSound(s, ops[..n]);
      FenceSteps(Run(s, ops[..n]), ops[n], name, name);
    }
  }

  /** A token once let go never owns its key again. */
  lemma {:induction false} TokenNeverReturns(s: Index, ops: seq<Op>, name: Text, key: Text, token: nat)
    requires AllSound(s.buckets) && Keeps(ops, name)
    requires token <= EpochOf(s, name) && FenceOf(s, name, key) != Some(token)
    ensures FenceOf(Run(s, ops), name, key) != Some(token)
  {
    hide Step, AllSound, EpochOf, FenceOf, Opens, Closes;
    if ops != [] {
      var n := |ops| - 1;
      TokenNeverReturns(s, ops[..n], name, key, token);
      EpochGrows(s, ops[..n], name);
      RunSound(s, ops[..n]);
      FenceSteps(Run(s, ops[..n]), ops[n], name, key);
    }
  }

  lemma NotOwned(s: Index, name: Text, key: Text, token: nat, truth: Authoritative)
    requires FenceOf(s, name, key) != Some(token)
    ensures Step(s, ResolveOp(name, key, token, truth)) == s
  {
    hide RowOf, TombOf, InsertRow, RemoveRow, Settle, Utf8;
    if name in s.buckets {
      assert s.buckets[name := s.buckets[name]] == s.buckets;
    }
  }

  /** A resolution whose token was closed or superseded changes nothing at all, however
      much later it arrives. */
  lemma LateResolution(s: Index, ops: seq<Op>, name: Text, key: Text, token: nat, truth: Authoritative)
    requires AllSound(s.buckets) && Keeps(ops, name)
    requires token <= EpochOf(s, name) && FenceOf(s, name, key) != Some(token)
    ensures Step(Run(s, ops), ResolveOp(name, key, token, truth)) == Run(s, ops)
  {
    hide Run, AllSound, Keeps, Utf8;
    TokenNeverReturns(s, ops, name, key, token);
    NotOwned(Run(s, ops), name, key, token, truth);
  }

  /** The operation at `i` closed the key's fence or gave it a later token. */
  ghost predicate LetGoAt(s: Index, ops: seq<Op>, i: nat, name: Text, key: Text, token: nat)
    requires i < |ops|
  {
    var now := Run(s, ops[..i]);
    && FenceOf(now, name, key) == Some(token)
    && (Closes(now, ops[i], name, key) || (Opens(now, ops[i], name, key) && EpochOf(now, name) >= token))
  }

  /** A fence gone from the end of a run was let go by one of its operations: LIST pages,
      observations, completions, sync completion, resync, discard and install never do. */
  lemma {:induction false} FenceLetGo(s: Index, ops: seq<Op>, name: Text, key: Text, token: nat)
    requires AllSound(s.buckets) && Keeps(ops, name)
    requires FenceOf(s, name, key) == Some(token) && FenceOf(Run(s, ops), name, key) != Some(token)
    ensures exists i: nat :: i < |ops| && LetGoAt(s, ops, i, name, key, token)
  {
    hide Step, AllSound, FenceOf, Opens, Closes, EpochOf;
    var n := |ops| - 1;
    var now := Run(s, ops[..n]);
    if FenceOf(now, name, key) == Some(token) {
      RunSound(s, ops[..n]);
      FenceSteps(now, ops[n], name, key);
      TokenAllocated(now, name, key);
      assert LetGoAt(s, ops, n, name, key, token);
    } else {
      FenceLetGo(s, ops[..n], name, key, token);
      var i: nat :| i < n && LetGoAt(s, ops[..n], i, name, key, token);
      assert ops[..n][..i] == ops[..i];
      assert LetGoAt(s, ops, i, name, key, token);
    }
  }

  lemma TokenAllocated(s: Index, name: Text, key: Text)
    requires AllSound(s.buckets) && FenceOf(s, name, key).Some?
    ensures 0 < FenceOf(s, name, key).value <= EpochOf(s, name)
  {
    hide Exclusive, Tabled;
    BucketOfSound(s, name);
  }

  /** The tokens a bucket hands out strictly increase, across keys and rebuilds alike. */
  lemma TokensIncrease(s: Index, ops: seq<Op>, i: nat, j: nat, name: Text, a: Text, b: Text)
    requires AllSound(s.buckets) && Keeps(ops, name) && i < j < |ops|
    requires Opens(Run(s, ops[..i]), ops[i], name, a) && Opens(Run(s, ops[..j]), ops[j], name, b)
    ensures var (x, y) := (FenceOf(Run(s, ops[..i + 1]), name, a), FenceOf(Run(s, ops[..j + 1]), name, b));
      x.Some? && y.Some? && x.value < y.value
  {
    hide Step, AllSound, FenceOf, EpochOf, Opens, Run;
    var (p, q) := (Run(s, ops[..i]), Run(s, ops[..i + 1]));
    RunSound(s, ops[..i]);
    RunSound(s, ops[..i + 1]);
    RunSound(s, ops[..j]);
    FenceSteps(p, ops[i], name, a);
    FenceSteps(Run(s, ops[..j]), ops[j], name, b);
    assert ops[..i + 1] == ops[..i] + [ops[i]] && ops[..j + 1] == ops[..j] + [ops[j]];
    RunNext(s, ops[..i], ops[i]);
    RunNext(s, ops[..j], ops[j]);
    RunSplit(s, ops[..i + 1], ops[i + 1..j]);
    assert ops[..j] == ops[..i + 1] + ops[i + 1..j];
    EpochGrows(q, ops[i + 1..j], name);
  }

  lemma {:induction false} RunSplit(s: Index, x: seq<Op>, y: seq<Op>)
    ensures Run(s, x + y) == Run(Run(s, x), y)
  {
    hide Step;
    if y == [] {
      assert x + y == x;
    } else {
      RunSplit(s, x, y[..|y| - 1]);
      assert (x + y)[..|x + y| - 1] == x + y[..|y| - 1];
    }
  }

  /** Removing a bucket forgets its epoch: the next fence draws a token already used, and a
      resolution from before the removal owns it and decides the key. */
  lemma RemovalReusesTokens(name: Text, key: Text, e: Entry)
    ensures var (f, r, late) := (FenceOp(name, key, None, true), RemoveOp(name), ResolveOp(name, key, 1, Present(e)));
      && FenceOf(Run(EMPTY_INDEX, [f]), name, key) == Some(1)
      && var again := Run(EMPTY_INDEX, [f, r, f]);
         && FenceOf(again, name, key) == Some(1) && RowOf(BucketOf(again, name), key).None?
         && FenceOf(Step(again, late), name, key).None? && RowOf(BucketOf(Step(again, late), name), key) == Some(e)
  {
    hide Utf8, Replace;
    var (f, r) := (FenceOp(name, key, None, true), RemoveOp(name));
    assert [f, r, f][..2] == [f, r] && [f, r][..1] == [f] && [f][..0] == [];
    assert Run(EMPTY_INDEX, []) == EMPTY_INDEX;
    var a := Run(EMPTY_INDEX, [f]);
    assert a.buckets == map[name := FenceBucket(EMPTY_BUCKET, key)];
    var b := Run(EMPTY_INDEX, [f, r]);
    assert b == Step(a, r);
    assert b.buckets == map[];
    var again := Run(EMPTY_INDEX, [f, r, f]);
    assert again == Step(b, f);
    assert again.buckets == map[name := FenceBucket(EMPTY_BUCKET, key)];
    LateDecides(again, name, key, e);
  }

  lemma LateDecides(s: Index, name: Text, key: Text, e: Entry)
    requires s.buckets == map[name := FenceBucket(EMPTY_BUCKET, key)]
    ensures var t := Step(s, ResolveOp(name, key, 1, Present(e)));
      FenceOf(t, name, key).None? && RowOf(BucketOf(t, name), key) == Some(e)
  {
    hide Utf8, Replace;
  }
}
