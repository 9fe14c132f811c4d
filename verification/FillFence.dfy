/** The fill-fence protocol of one key (src/tier.rs, with the write steps of
    src/cache/mutation.rs): origin fills and observations, invalidations and writes, each
    await point a step of its own, interleaved in any way. */
module FillFence {
  import opened Base

  /** Where one registered fill stands. From `Holding` to `Inserted` it owns its commit lock. */
  datatype Phase = Waiting | Fetched(version: nat) | Holding(version: nat) | Committing(version: nat) | Inserted | Gone

  /** A fill's fence: its stale flag and the invalidation holding its commit lock, if any. */
  datatype Fill = Fill(phase: Phase, stale: bool, holder: Option<nat>)

  /** One invalidation: the fences registered when it looked, those marked, those whose
      locks it holds, and whether it has the key to itself and has dropped it. */
  datatype Sweep = Sweep(snapshot: set<nat>, marked: set<nat>, held: set<nat>, returned: bool, dropped: bool)

  /** A write of the key, one at a time: the origin call, then the invalidation behind it. */
  datatype Write = NoWrite | Calling | Applied | Clearing(sweep: nat) | Cleared

  /** `closed`: fills that an invalidation found registered before its fence returned. */
  datatype State = State(
    fills: map<nat, Fill>,
    sweeps: map<nat, Sweep>,
    cache: Option<nat>,
    origin: nat,
    write: Write,
    closed: set<nat>)

  const START := State(map[], map[], None, 0, NoWrite, {})

  datatype Move =
    | Register(fill: nat)
    | Fetch(fill: nat)
    | Lock(fill: nat)
    /** `proved`: the read is still provably current to the caller. */
    | Check(fill: nat, proved: bool)
    | Insert(fill: nat)
    | Release(fill: nat)
    | Cancel(fill: nat)
    | Begin(sweep: nat)
    | Mark(sweep: nat, fill: nat)
    | Acquire(sweep: nat, fill: nat)
    | Return(sweep: nat)
    | Drop(sweep: nat)
    | End(sweep: nat)
    | Evict
    | Call
    /** The origin applied the write, or its answer leaves that in doubt. */
    | Apply(changed: bool)
    | Refuse
    | Clear(sweep: nat)
    | Settle
    | WriteFill
    | Finish

  predicate Owns(p: Phase) { p.Holding? || p.Committing? || p.Inserted? }

  function At(s: State, f: nat): Fill { if f in s.fills then s.fills[f] else Fill(Gone, false, None) }

  function Moved(s: State, f: nat, p: Phase): State { s.(fills := s.fills[f := At(s, f).(phase := p)]) }

  function Began(s: State, i: nat): State {
    s.(sweeps := s.sweeps[i := Sweep(set f | f in s.fills && !s.fills[f].phase.Gone?, {}, {}, false, false)])
  }

  /** Guards dropped: every lock the invalidation holds is free again. */
  function Ended(s: State, i: nat): State {
    s.(sweeps := s.sweeps - {i},
       fills := map f | f in s.fills :: if s.fills[f].holder == Some(i) then s.fills[f].(holder := None)
                                        else s.fills[f])
  }

  function Next(s: State, m: Move): State {
    match m
    case Register(f) => if f in s.fills then s else s.(fills := s.fills[f := Fill(Waiting, false, None)])
    case Fetch(f) => if At(s, f).phase.Waiting? then Moved(s, f, Fetched(s.origin)) else s
    case Lock(f) =>
      if At(s, f).phase.Fetched? && At(s, f).holder.None? then Moved(s, f, Holding(At(s, f).phase.version)) else s
    case Check(f, proved) =>
      if !At(s, f).phase.Holding? then s
      else Moved(s, f, if !At(s, f).stale && proved then Committing(At(s, f).phase.version) else Gone)
    case Insert(f) =>
      if At(s, f).phase.Committing? then Moved(s, f, Inserted).(cache := Some(At(s, f).phase.version)) else s
    case Release(f) => if At(s, f).phase.Inserted? then Moved(s, f, Gone) else s
    case Cancel(f) => if f in s.fills then Moved(s, f, Gone) else s
    case Begin(i) => if i in s.sweeps then s else Began(s, i)
    case Mark(i, f) =>
      if i !in s.sweeps || f !in s.sweeps[i].snapshot || f !in s.fills then s
      else s.(fills := s.fills[f := s.fills[f].(stale := true)],
              sweeps := s.sweeps[i := s.sweeps[i].(marked := s.sweeps[i].marked + {f})])
    case Acquire(i, f) =>
      if i !in s.sweeps || s.sweeps[i].marked != s.sweeps[i].snapshot || f !in s.sweeps[i].snapshot || f !in s.fills
         || Owns(s.fills[f].phase) || s.fills[f].holder.Some? then s
      else s.(fills := s.fills[f := s.fills[f].(holder := Some(i))],
              sweeps := s.sweeps[i := s.sweeps[i].(held := s.sweeps[i].held + {f})])
    case Return(i) =>
      if i !in s.sweeps || s.sweeps[i].marked != s.sweeps[i].snapshot || s.sweeps[i].held != s.sweeps[i].snapshot then s
      else s.(sweeps := s.sweeps[i := s.sweeps[i].(returned := true)], closed := s.closed + s.sweeps[i].snapshot)
    case Drop(i) =>
      if i !in s.sweeps || !s.sweeps[i].returned then s
      else s.(cache := None, sweeps := s.sweeps[i := s.sweeps[i].(dropped := true)])
    case End(i) => if i !in s.sweeps || s.write == Clearing(i) then s else Ended(s, i)
    case Evict => s.(cache := None)
    case Call => if s.write.NoWrite? then s.(write := Calling) else s
    case Apply(changed) =>
      if s.write.Calling? then s.(write := Applied, origin := if changed then s.origin + 1 else s.origin) else s
    case Refuse => if s.write.Calling? then s.(write := NoWrite) else s
    case Clear(i) => if !s.write.Applied? || i in s.sweeps then s else Began(s, i).(write := Clearing(i))
    case Settle =>
      if !s.write.Clearing? || s.write.sweep !in s.sweeps || !s.sweeps[s.write.sweep].dropped then s
      else Ended(s, s.write.sweep).(write := Cleared)
    case WriteFill => if s.write.Cleared? then s.(cache := Some(s.origin)) else s
    case Finish => if s.write.Cleared? then s.(write := NoWrite) else s
  }

  function Run(moves: seq<Move>): State {
    if moves == [] then START else Next(Run(moves[..|moves| - 1]), moves[|moves| - 1])
  }

  // ----- what every step keeps -----

  /** The version the fill may yet land. */
  function Payload(f: Fill): Option<nat> {
    match f.phase
    case Fetched(v) => Some(v)
    case Holding(v) => Some(v)
    case Committing(v) => Some(v)
    case _ => None
  }

  predicate Hopeless(f: Fill) { f.stale && !f.phase.Committing? }

  /** What one invalidation marked is stale, a lock it holds shuts its fill out, and once
      returned it has marked and holds all it saw. */
  ghost predicate SweepFenced(fills: map<nat, Fill>, i: nat, w: Sweep) {
    && w.marked <= w.snapshot && w.held <= w.snapshot
    && (forall f :: f in w.snapshot ==> f in fills)
    && (forall f :: f in w.marked ==> f in fills && fills[f].stale)
    && (forall f :: f in w.held ==> f in fills && fills[f].holder == Some(i) && !Owns(fills[f].phase))
    && (w.returned ==> w.held == w.snapshot == w.marked)
    && (w.dropped ==> w.returned)
  }

  ghost predicate Fenced(s: State) { forall i :: i in s.sweeps ==> SweepFenced(s.fills, i, s.sweeps[i]) }

  /** A closed fill can never again pass its check. */
  ghost predicate Closed(s: State) { forall f :: f in s.closed ==> f in s.fills && Hopeless(s.fills[f]) }

  /** Whatever the fill may yet land is the origin's current version, or it never will. */
  predicate Sound(s: State, f: Fill) { Hopeless(f) || Payload(f).None? || Payload(f) == Some(s.origin) }

  predicate Exact(s: State) { s.cache.None? || s.cache == Some(s.origin) }

  /** Between writes the cache and every fill are sound. Behind an applied write the
      invalidation restores that: at once for fills it did not see, which began after it
      looked, and for the rest once it has the key to itself. */
  ghost predicate Current(s: State) {
    match s.write
    case Applied => true
    case Clearing(i) =>
      && i in s.sweeps
      && (forall f :: f in s.fills && f !in s.sweeps[i].snapshot ==> Sound(s, s.fills[f]))
      && (s.sweeps[i].dropped ==> Exact(s))
    case _ => Exact(s) && forall f :: f in s.fills ==> Sound(s, s.fills[f])
  }

  ghost predicate Inv(s: State) { Fenced(s) && Closed(s) && Current(s) }

  predicate OfFill(m: Move) { m.Register? || m.Fetch? || m.Lock? || m.Check? || m.Insert? || m.Release? || m.Cancel? }

  predicate OfSweep(m: Move) { m.Begin? || m.Mark? || m.Acquire? || m.Return? || m.Drop? || m.End? }

  /** A fill's own step keeps every invalidation's hold on it: flags only rise, and no
      lock is taken while another holds it. */
  lemma FillMoves(fills: map<nat, Fill>, f: nat, moved: Fill, i: nat, w: Sweep)
    requires SweepFenced(fills, i, w) && f in fills
    requires (fills[f].stale ==> moved.stale) && moved.holder == fills[f].holder
    requires Owns(moved.phase) ==> Owns(fills[f].phase) || moved.holder.None?
    ensures SweepFenced(fills[f := moved], i, w)
  {}

  lemma FillAppears(fills: map<nat, Fill>, f: nat, i: nat, w: Sweep)
    requires SweepFenced(fills, i, w) && f !in fills
    ensures SweepFenced(fills[f := Fill(Waiting, false, None)], i, w)
  {}

  lemma FillFenced(s: State, m: Move)
    requires Fenced(s) && OfFill(m)
    ensures Fenced(Next(s, m))
  {
    hide SweepFenced;
    var t := Next(s, m);
    forall i | i in t.sweeps ensures SweepFenced(t.fills, i, t.sweeps[i]) {
      var f := m.fill;
      if f in s.fills { FillMoves(s.fills, f, At(t, f), i, s.sweeps[i]); assert s.fills[f := s.fills[f]] == s.fills; }
      else if m.Register? { FillAppears(s.fills, f, i, s.sweeps[i]); }
    }
  }

  lemma SweepStepFenced(s: State, m: Move)
    requires Fenced(s) && OfSweep(m)
    ensures Fenced(Next(s, m))
  {
    hide Fenced;
    match m {
      case Begin(_) => BeginFenced(s, m);
      case End(i) => EndFenced(s, i);
      case Return(_) => DropFenced(s, m);
      case Drop(_) => DropFenced(s, m);
      case _ => HoldFenced(s, m);
    }
  }

  lemma BeginFenced(s: State, m: Move)
    requires Fenced(s) && m.Begin?
    ensures Fenced(Next(s, m))
  {}

  lemma DropFenced(s: State, m: Move)
    requires Fenced(s) && (m.Return? || m.Drop?)
    ensures Fenced(Next(s, m))
  {}

  lemma HoldFenced(s: State, m: Move)
    requires Fenced(s) && (m.Mark? || m.Acquire?)
    ensures Fenced(Next(s, m))
  {
    var t := Next(s, m);
    if t != s {
      var i := m.sweep;
      OthersKeep(s, i, m.fill, t.fills[m.fill]);
      HolderKeeps(s, m);
      assert forall j :: j in s.sweeps && j != i ==> t.sweeps[j] == s.sweeps[j];
      hide Next, SweepFenced;
    }
  }

  lemma HolderKeeps(s: State, m: Move)
    requires Fenced(s) && (m.Mark? || m.Acquire?) && Next(s, m) != s
    ensures var t := Next(s, m);
      && m.sweep in s.sweeps && t.sweeps == s.sweeps[m.sweep := t.sweeps[m.sweep]]
      && t.fills == s.fills[m.fill := t.fills[m.fill]]
      && SweepFenced(t.fills, m.sweep, t.sweeps[m.sweep])
  {
    assert SweepFenced(s.fills, m.sweep, s.sweeps[m.sweep]);
  }

  lemma OthersKeep(s: State, i: nat, f: nat, moved: Fill)
    requires Fenced(s) && f in s.fills && moved.phase == s.fills[f].phase && (s.fills[f].stale ==> moved.stale)
    requires s.fills[f].holder.Some? ==> moved.holder == s.fills[f].holder
    ensures forall j :: j in s.sweeps && j != i ==> SweepFenced(s.fills[f := moved], j, s.sweeps[j])
  {}

  lemma EndFenced(s: State, i: nat)
    requires Fenced(s)
    ensures Fenced(Ended(s, i))
  {}

  lemma WriteFenced(s: State, m: Move)
    requires Fenced(s) && !OfFill(m) && !OfSweep(m)
    ensures Fenced(Next(s, m))
  {
    if m.Settle? && s.write.Clearing? { EndFenced(s, s.write.sweep); }
  }

  lemma ClosedStep(s: State, m: Move)
    requires Fenced(s) && Closed(s)
    ensures Closed(Next(s, m))
  {}

  lemma FillCurrent(s: State, m: Move)
    requires Inv(s) && OfFill(m)
    ensures Current(Next(s, m))
  {
    hide Closed;
  }

  lemma SweepCurrent(s: State, m: Move)
    requires Inv(s) && OfSweep(m)
    ensures Current(Next(s, m))
  {
    hide Closed, Fenced, Current;
    match m {
      case Begin(_) => BeginCurrent(s, m);
      case Mark(_, _) => FenceCurrent(s, m);
      case Acquire(_, _) => FenceCurrent(s, m);
      case End(_) => EndCurrent(s, m);
      case _ => DropCurrent(s, m);
    }
  }

  lemma BeginCurrent(s: State, m: Move)
    requires Current(s) && m.Begin?
    ensures Current(Next(s, m))
  {}

  lemma FenceCurrent(s: State, m: Move)
    requires Current(s) && (m.Mark? || m.Acquire?)
    ensures Current(Next(s, m))
  {
    if Next(s, m) != s { MarkSound(s, m.fill); }
  }

  lemma DropCurrent(s: State, m: Move)
    requires Current(s) && (m.Return? || m.Drop?)
    ensures Current(Next(s, m))
  {}

  lemma EndCurrent(s: State, m: Move)
    requires Current(s) && m.End?
    ensures Current(Next(s, m))
  {}

  lemma MarkSound(s: State, f: nat)
    requires f in s.fills
    ensures Sound(s, s.fills[f]) ==> Sound(s, s.fills[f].(stale := true))
  {}

  lemma WriteCurrent(s: State, m: Move)
    requires Inv(s) && !OfFill(m) && !OfSweep(m)
    ensures Current(Next(s, m))
  {
    hide Closed;
  }

  lemma StepKeeps(s: State, m: Move)
    requires Inv(s)
    ensures Inv(Next(s, m))
  {
    hide Next, Fenced, Closed, Current;
    ClosedStep(s, m);
    if OfFill(m) {
      FillFenced(s, m);
      FillCurrent(s, m);
    } else if OfSweep(m) {
      SweepStepFenced(s, m);
      SweepCurrent(s, m);
    } else {
      WriteFenced(s, m);
      WriteCurrent(s, m);
    }
  }

  lemma {:induction false} RunKeeps(moves: seq<Move>)
    ensures Inv(Run(moves))
  {
    hide Next;
    if moves != [] {
      RunKeeps(moves[..|moves| - 1]);
      StepKeeps(Run(moves[..|moves| - 1]), moves[|moves| - 1]);
    }
  }

  // ----- the promises -----

  ghost predicate Recorded(s: State) {
    forall i :: i in s.sweeps && s.sweeps[i].returned ==> s.sweeps[i].snapshot <= s.closed
  }

  lemma {:induction false} RunRecorded(moves: seq<Move>)
    ensures Recorded(Run(moves))
  {
    if moves != [] { RunRecorded(moves[..|moves| - 1]); }
  }

  lemma ClosedGrows(s: State, m: Move)
    ensures s.closed <= Next(s, m).closed
  {}

  lemma {:induction false} ClosedForGood(before: seq<Move>, after: seq<Move>)
    ensures Run(before).closed <= Run(before + after).closed
  {
    if after == [] {
      assert before + after == before;
    } else {
      hide Next;
      var n := |after| - 1;
      ClosedForGood(before, after[..n]);
      assert (before + after)[..|before + after| - 1] == before + after[..n];
      ClosedGrows(Run(before + after[..n]), after[n]);
    }
  }

  /** Once an invalidation's fence has returned, no fill or observation registered when it
      looked lands anything about the key, then or ever after. */
  lemma NoLateCommit(before: seq<Move>, after: seq<Move>, i: nat, f: nat)
    requires i in Run(before).sweeps && Run(before).sweeps[i].returned && f in Run(before).sweeps[i].snapshot
    ensures Next(Run(before + after), Insert(f)) == Run(before + after)
  {
    RunRecorded(before);
    ClosedForGood(before, after);
    RunKeeps(before + after);
    hide Run, Fenced, Current;
  }

  lemma RunOne(moves: seq<Move>, m: Move)
    ensures Run(moves + [m]) == Next(Run(moves), m)
  {
    hide Next;
    assert (moves + [m])[..|moves|] == moves;
  }

  lemma OverStep(s: State, m: Move, f: nat)
    requires f in s.fills && s.fills[f].phase.Gone?
    ensures f in Next(s, m).fills && Next(s, m).fills[f].phase.Gone?
  {}

  lemma {:induction false} OverIsOver(before: seq<Move>, after: seq<Move>, f: nat)
    requires f in Run(before).fills && Run(before).fills[f].phase.Gone?
    ensures f in Run(before + after).fills && Run(before + after).fills[f].phase.Gone?
  {
    if after == [] {
      assert before + after == before;
    } else {
      var n := |after| - 1;
      hide Run, Next;
      OverIsOver(before, after[..n], f);
      assert before + after == (before + after[..n]) + [after[n]];
      RunOne(before + after[..n], after[n]);
      OverStep(Run(before + after[..n]), after[n], f);
    }
  }

  /** Whatever the fill may yet land, the origin has held since `origin`. */
  ghost predicate Since(s: State, f: nat, origin: nat) {
    origin <= s.origin && (f in s.fills && Payload(s.fills[f]).Some? ==> origin <= Payload(s.fills[f]).value)
  }

  lemma SinceStep(s: State, m: Move, f: nat, origin: nat)
    requires Since(s, f, origin)
    ensures Since(Next(s, m), f, origin)
  {}

  /** A fill not yet registered can only fetch versions the origin gives from then on. */
  lemma {:induction false} FetchesLater(before: seq<Move>, after: seq<Move>, f: nat)
    requires f !in Run(before).fills
    ensures Since(Run(before + after), f, Run(before).origin)
  {
    hide Next;
    if after == [] {
      assert before + after == before;
    } else {
      var n := |after| - 1;
      FetchesLater(before, after[..n], f);
      assert before + after == (before + after[..n]) + [after[n]];
      RunOne(before + after[..n], after[n]);
      SinceStep(Run(before + after[..n]), after[n], f, Run(before).origin);
    }
  }

  /** An invalidation misses no fill in flight: one it did not see registered after it
      looked, and has nothing to land from before. */
  lemma MissedBeganLater(before: seq<Move>, i: nat, after: seq<Move>, f: nat)
    requires i !in Run(before).sweeps && f !in Run(before + [Begin(i)]).sweeps[i].snapshot
    requires var t := Run(before + [Begin(i)] + after); f in t.fills && !t.fills[f].phase.Gone?
    ensures f !in Run(before).fills && Since(Run(before + [Begin(i)] + after), f, Run(before).origin)
  {
    hide Run;
    RunOne(before, Begin(i));
    if f in Run(before).fills { OverIsOver(before + [Begin(i)], after, f); }
    FetchesLater(before + [Begin(i)], after, f);
  }

  /** With writes of the key one at a time and all of them here, whenever none is in
      flight the cached body is absent or exactly the origin's current version. */
  lemma CacheIsCurrent(moves: seq<Move>)
    requires Run(moves).write.NoWrite?
    ensures Run(moves).cache.None? || Run(moves).cache == Some(Run(moves).origin)
  {
    RunKeeps(moves);
    hide Run, Fenced, Closed;
  }

  /** The same protocol with a write that settles without clearing the key. */
  function Hasty(s: State, m: Move): State {
    if m.Clear? && s.write.Applied? then s.(write := Cleared) else Next(s, m)
  }

  function HastyFrom(s: State, moves: seq<Move>): State
    decreases |moves|
  {
    if moves == [] then s else HastyFrom(Hasty(s, moves[0]), moves[1..])
  }

  lemma HastyOne(s: State, m: Move, rest: seq<Move>)
    ensures HastyFrom(s, [m] + rest) == HastyFrom(Hasty(s, m), rest)
  {
    hide Hasty;
    assert ([m] + rest)[1..] == rest;
  }

  function FillMovesOf(f: nat): seq<Move> { [Register(f)] + ([Fetch(f)] + ([Lock(f)] + [Check(f, true)])) }

  function WriteMoves(i: nat, f: nat): seq<Move> {
    [Call] + ([Apply(true)] + ([Clear(i)] + ([Finish] + ([Insert(f)] + []))))
  }

  lemma HastyFill(s: State, f: nat, rest: seq<Move>)
    requires f !in s.fills
    ensures HastyFrom(s, FillMovesOf(f) + rest) ==
        HastyFrom(s.(fills := s.fills[f := Fill(Committing(s.origin), false, None)]), rest)
  {
    hide HastyFrom;
    assert FillMovesOf(f) + rest == [Register(f)] + ([Fetch(f)] + ([Lock(f)] + ([Check(f, true)] + rest)));
    HastyOne(s, Register(f), [Fetch(f)] + ([Lock(f)] + ([Check(f, true)] + rest)));
    var s1 := Hasty(s, Register(f));
    HastyOne(s1, Fetch(f), [Lock(f)] + ([Check(f, true)] + rest));
    var s2 := Hasty(s1, Fetch(f));
    HastyOne(s2, Lock(f), [Check(f, true)] + rest);
    var s3 := Hasty(s2, Lock(f));
    HastyOne(s3, Check(f, true), rest);
    assert Hasty(s3, Check(f, true)) == s.(fills := s.fills[f := Fill(Committing(s.origin), false, None)]);
  }

  /** The fill's commit landing after a write that never cleared the key. */
  function HastyWrite(s: State, f: nat, i: nat): State {
    Hasty(Hasty(Hasty(Hasty(Hasty(s, Call), Apply(true)), Clear(i)), Finish), Insert(f))
  }

  lemma HastyWriteIs(s: State, f: nat, i: nat)
    requires s.write.NoWrite? && f in s.fills && s.fills[f].phase == Committing(s.origin)
    ensures var t := HastyWrite(s, f, i); t.write.NoWrite? && t.origin == s.origin + 1 && t.cache == Some(s.origin)
  {}

  lemma HastyWriteRuns(s: State, f: nat, i: nat)
    ensures HastyFrom(s, WriteMoves(i, f)) == HastyWrite(s, f, i)
  {
    hide Hasty;
    assert HastyFrom(HastyWrite(s, f, i), []) == HastyWrite(s, f, i);
    hide HastyFrom;
    HastyOne(s, Call, [Apply(true)] + ([Clear(i)] + ([Finish] + ([Insert(f)] + []))));
    var s1 := Hasty(s, Call);
    HastyOne(s1, Apply(true), [Clear(i)] + ([Finish] + ([Insert(f)] + [])));
    var s2 := Hasty(s1, Apply(true));
    HastyOne(s2, Clear(i), [Finish] + ([Insert(f)] + []));
    var s3 := Hasty(s2, Clear(i));
    HastyOne(s3, Finish, [Insert(f)] + []);
    HastyOne(Hasty(s3, Finish), Insert(f), []);
  }

  /** The clearing is what does it. Without it, from any state with no write in flight, a
      fill and a write reach another such state whose cached body the write replaced. */
  lemma ClearingIsNeeded(s: State, f: nat, i: nat)
    requires s.write.NoWrite? && f !in s.fills
    ensures var t := HastyFrom(s, FillMovesOf(f) + WriteMoves(i, f));
      t.write.NoWrite? && t.origin == s.origin + 1 && t.cache == Some(s.origin)
  {
    hide HastyFrom, HastyWrite, FillMovesOf, WriteMoves;
    var filled := s.(fills := s.fills[f := Fill(Committing(s.origin), false, None)]);
    HastyFill(s, f, WriteMoves(i, f));
    HastyWriteRuns(filled, f, i);
    HastyWriteIs(filled, f, i);
  }
}
