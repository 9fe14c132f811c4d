/** Trust generations of cached bodies on a replicated node (src/tier.rs, src/cache/proxy.rs):
    every read, fill, write and remediation as steps between its await points. */
module Trust {
  import opened Base

  /** How a copy was proved current: by the fill that fetched it, the write that produced
      it, or a match against the index. */
  datatype Proof = Proof(copy: nat, generation: nat, how: Means)

  datatype Means = ByFill | ByWrite | ByIndex

  /** A local read: its captured generation, then the copy it probed, then the generation it
      judged that copy under. */
  datatype Read =
    | Began(captured: nat)
    | Probed(captured: nat, copy: nat)
    | Judging(captured: nat, copy: nat, generation: nat)
    | Ready(captured: nat, copy: nat, generation: nat)
    | Over

  /** An origin fetch or a client write, under the generation read before it left. */
  datatype Landing =
    | Fetching(generation: nat)
    | Checked(generation: nat)
    | Stamped(generation: nat, copy: nat)
    | Writing(generation: nat)
    | Landed

  datatype Served = Served(copy: nat, captured: nat, gate: nat)

  datatype State = State(
    generation: nat,
    stamps: map<nat, nat>,
    cache: Option<nat>,
    readers: map<nat, Read>,
    landings: map<nat, Landing>,
    /** What has been proved, and what has been served: the run's record, read by no step. */
    proofs: set<Proof>,
    served: set<Served>)

  const START := State(1, map[], None, map[], map[], {}, {})

  datatype Move =
    | Distrust
    /** A warm copy is decoded and promoted: its stamp is zero. */
    | Promote(copy: nat)
    | Evict
    | FillBegins(fill: nat)
    | FillChecks(fill: nat)
    | FillStamps(fill: nat, copy: nat)
    | FillInserts(fill: nat)
    | WriteBegins(write: nat)
    | WriteInserts(write: nat, copy: nat)
    | ReadBegins(read: nat)
    | Probe(read: nat)
    | Load(read: nat)
    /** `matches`: the synced index holds the copy's own version. */
    | Judge(read: nat, matches: bool)
    | Gate(read: nat)

  function ReadAt(s: State, r: nat): Read { if r in s.readers then s.readers[r] else Over }

  function LandingAt(s: State, l: nat): Landing { if l in s.landings then s.landings[l] else Landed }

  function StampOf(s: State, copy: nat): nat { if copy in s.stamps then s.stamps[copy] else 0 }

  function Proved(s: State, copy: nat, generation: nat, how: Means): State {
    s.(stamps := s.stamps[copy := generation], proofs := s.proofs + {Proof(copy, generation, how)})
  }

  function Next(s: State, m: Move): State {
    match m
    case Distrust => s.(generation := s.generation + 1)
    case Promote(copy) => if copy in s.stamps then s else s.(stamps := s.stamps[copy := 0], cache := Some(copy))
    case Evict => s.(cache := None)
    case FillBegins(l) => if l in s.landings then s else s.(landings := s.landings[l := Fetching(s.generation)])
    case FillChecks(l) =>
      // The fill commits only while the generation it began under still stands.
      if LandingAt(s, l) == Fetching(s.generation) then s.(landings := s.landings[l := Checked(s.generation)]) else s
    case FillStamps(l, copy) =>
      if !LandingAt(s, l).Checked? || copy in s.stamps then s
      else
        var generation := LandingAt(s, l).generation;
        Proved(s, copy, generation, ByFill).(landings := s.landings[l := Stamped(generation, copy)])
    case FillInserts(l) =>
      if LandingAt(s, l).Stamped? then s.(cache := Some(LandingAt(s, l).copy), landings := s.landings[l := Landed])
      else s
    case WriteBegins(l) => if l in s.landings then s else s.(landings := s.landings[l := Writing(s.generation)])
    case WriteInserts(l, copy) =>
      if !LandingAt(s, l).Writing? || copy in s.stamps then s
      else
        Proved(s, copy, LandingAt(s, l).generation, ByWrite)
        .(cache := Some(copy), landings := s.landings[l := Landed])
    case ReadBegins(r) => if r in s.readers then s else s.(readers := s.readers[r := Began(s.generation)])
    case Probe(r) =>
      if !ReadAt(s, r).Began? then s
      else s.(readers := s.readers[r := if s.cache.Some? then Probed(ReadAt(s, r).captured, s.cache.value) else Over])
    case Load(r) =>
      if ReadAt(s, r).Probed?
      then s.(readers := s.readers[r := Judging(ReadAt(s, r).captured, ReadAt(s, r).copy, s.generation)]) else s
    case Judge(r, matches) =>
      if !ReadAt(s, r).Judging? then s else
      var read := ReadAt(s, r);
      var ready := s.(readers := s.readers[r := Ready(read.captured, read.copy, read.generation)]);
      if StampOf(s, read.copy) == read.generation then ready
      else if matches then Proved(ready, read.copy, read.generation, ByIndex)
      else s.(cache := None, readers := s.readers[r := Over])
    case Gate(r) =>
      if !ReadAt(s, r).Ready? then s else
      var read := ReadAt(s, r);
      var over := s.(readers := s.readers[r := Over]);
      if s.generation == read.captured then over.(served := s.served + {Served(read.copy, read.captured, s.generation)})
      else over
  }

  function Run(moves: seq<Move>): State {
    if moves == [] then START else Next(Run(moves[..|moves| - 1]), moves[|moves| - 1])
  }

  // ----- what every step keeps -----

  predicate ProvedUnder(s: State, copy: nat, generation: nat) {
    || Proof(copy, generation, ByFill) in s.proofs
    || Proof(copy, generation, ByWrite) in s.proofs
    || Proof(copy, generation, ByIndex) in s.proofs
  }

  /** The generation a read captured is no later than the one it judges under, nor that
      than the present; what is ready was proved under the latter. */
  predicate ReadFine(s: State, read: Read) {
    match read
    case Began(captured) => 0 < captured <= s.generation
    case Probed(captured, _) => 0 < captured <= s.generation
    case Judging(captured, _, generation) => 0 < captured <= generation <= s.generation
    case Ready(captured, copy, generation) =>
      0 < captured <= generation <= s.generation && ProvedUnder(s, copy, generation)
    case Over => true
  }

  ghost predicate ReadersFine(s: State) { forall r :: r in s.readers ==> ReadFine(s, s.readers[r]) }

  ghost predicate LandingsFine(s: State) {
    forall l :: l in s.landings ==> s.landings[l].Landed? || 0 < s.landings[l].generation <= s.generation
  }

  ghost predicate StampsFine(s: State) {
    forall copy :: copy in s.stamps && s.stamps[copy] > 0 ==> ProvedUnder(s, copy, s.stamps[copy])
  }

  predicate ServedFine(s: State, x: Served) {
    x.captured == x.gate && ProvedUnder(s, x.copy, x.gate) && 0 < x.gate <= s.generation
  }

  ghost predicate RecordFine(s: State) {
    && (forall p :: p in s.proofs ==> 0 < p.generation <= s.generation)
    && (forall x :: x in s.served ==> ServedFine(s, x))
  }

  ghost predicate Inv(s: State) {
    s.generation > 0 && ReadersFine(s) && LandingsFine(s) && StampsFine(s) && RecordFine(s)
  }

  predicate Grows(s: State, t: State) { s.generation <= t.generation && s.proofs <= t.proofs && s.served <= t.served }

  lemma StepGrows(s: State, m: Move)
    ensures Grows(s, Next(s, m))
  {}

  lemma StillFine(s: State, t: State, read: Read)
    requires Grows(s, t) && ReadFine(s, read)
    ensures ReadFine(t, read)
  {}

  lemma ReaderSteps(s: State, m: Move)
    requires Inv(s)
    ensures ReadersFine(Next(s, m))
  {
    hide LandingsFine, RecordFine;
    var t := Next(s, m);
    forall r | r in t.readers ensures ReadFine(t, t.readers[r]) {
      ReaderStep(s, m, r);
    }
  }

  lemma ReaderStep(s: State, m: Move, r: nat)
    requires Inv(s) && r in Next(s, m).readers
    ensures ReadFine(Next(s, m), Next(s, m).readers[r])
  {
    hide LandingsFine, RecordFine;
    var t := Next(s, m);
    StepGrows(s, m);
    if r in s.readers && t.readers[r] == s.readers[r] {
      StillFine(s, t, s.readers[r]);
    } else {
      assert (m.ReadBegins? || m.Probe? || m.Load? || m.Judge? || m.Gate?) && m.read == r;
      if r in s.readers { assert ReadFine(s, s.readers[r]); }
    }
  }

  lemma LandingSteps(s: State, m: Move)
    requires Inv(s)
    ensures LandingsFine(Next(s, m))
  {
    hide ReadersFine, StampsFine, RecordFine;
  }

  lemma StampSteps(s: State, m: Move)
    requires Inv(s)
    ensures StampsFine(Next(s, m))
  {
    hide ReadersFine, LandingsFine, RecordFine;
    var t := Next(s, m);
    StepGrows(s, m);
    forall copy | copy in t.stamps && t.stamps[copy] > 0 ensures ProvedUnder(t, copy, t.stamps[copy]) {
      if copy in s.stamps && t.stamps[copy] == s.stamps[copy] { assert ProvedUnder(s, copy, s.stamps[copy]); }
    }
  }

  lemma RecordSteps(s: State, m: Move)
    requires Inv(s)
    ensures RecordFine(Next(s, m))
  {
    hide StampsFine;
    var t := Next(s, m);
    StepGrows(s, m);
    forall x | x in t.served ensures ServedFine(t, x) {
      if x in s.served { assert ServedFine(s, x); } else { assert m.Gate?; assert ReadFine(s, s.readers[m.read]); }
    }
    forall p | p in t.proofs ensures 0 < p.generation <= t.generation {
      if p !in s.proofs { ProofStep(s, m, p); }
    }
  }

  lemma ProofStep(s: State, m: Move, p: Proof)
    requires Inv(s) && p in Next(s, m).proofs && p !in s.proofs
    ensures 0 < p.generation <= s.generation
  {
    hide StampsFine, RecordFine;
    match m {
      case Judge(r, _) => assert ReadFine(s, s.readers[r]);
      case _ =>
    }
  }

  lemma {:induction false} RunKeeps(moves: seq<Move>)
    ensures Inv(Run(moves))
  {
    if moves != [] {
      var s := Run(moves[..|moves| - 1]);
      var m := moves[|moves| - 1];
      RunKeeps(moves[..|moves| - 1]);
      StepGrows(s, m);
      ReaderSteps(s, m);
      LandingSteps(s, m);
      StampSteps(s, m);
      RecordSteps(s, m);
      hide Next, ReadersFine, LandingsFine, StampsFine, RecordFine;
    }
  }

  // ----- the promises -----

  /** Whatever a read answers from the tiers was proved under the generation current both
      when the read began and when its final gate passed. */
  lemma ServedWasProved(moves: seq<Move>, x: Served)
    requires x in Run(moves).served
    ensures x.captured == x.gate && ProvedUnder(Run(moves), x.copy, x.gate)
  {
    RunKeeps(moves);
    hide Run, ReadersFine, LandingsFine, StampsFine;
    assert ServedFine(Run(moves), x);
  }

  lemma GenerationStep(s: State, m: Move)
    ensures Next(s, m).generation == s.generation + if m.Distrust? then 1 else 0
  {}

  lemma {:induction false} GenerationGrows(before: seq<Move>, after: seq<Move>)
    ensures Run(before).generation <= Run(before + after).generation
    ensures Distrust in after ==> Run(before).generation < Run(before + after).generation
  {
    if after == [] {
      assert before + after == before;
    } else {
      var n := |after| - 1;
      hide Next, Run;
      GenerationGrows(before, after[..n]);
      assert before + after == (before + after[..n]) + [after[n]] && after == after[..n] + [after[n]];
      RunOne(before + after[..n], after[n]);
      GenerationStep(Run(before + after[..n]), after[n]);
    }
  }

  lemma CaptureStep(s: State, m: Move, r: nat)
    requires r in s.readers
    ensures r in Next(s, m).readers
    ensures var read := Next(s, m).readers[r];
      read.Over? || (!s.readers[r].Over? && read.captured == s.readers[r].captured)
  {}

  /** A read keeps the generation it captured until it is over. */
  lemma {:induction false} CaptureStands(before: seq<Move>, after: seq<Move>, r: nat)
    requires r in Run(before).readers
    ensures r in Run(before + after).readers
    ensures var read := Run(before + after).readers[r];
      read.Over? || (!Run(before).readers[r].Over? && read.captured == Run(before).readers[r].captured)
  {
    if after == [] {
      assert before + after == before;
    } else {
      var n := |after| - 1;
      hide Run, Next;
      CaptureStands(before, after[..n], r);
      assert before + after == (before + after[..n]) + [after[n]];
      RunOne(before + after[..n], after[n]);
      CaptureStep(Run(before + after[..n]), after[n], r);
    }
  }

  /** A read already begun when a remediation comes answers nothing at any later gate. */
  lemma DistrustRefuses(before: seq<Move>, after: seq<Move>, r: nat)
    requires r in Run(before).readers && Distrust in after
    ensures Run(before + after + [Gate(r)]).served == Run(before + after).served
  {
    RunKeeps(before);
    GenerationGrows(before, after);
    CaptureStands(before, after, r);
    assert ReadFine(Run(before), Run(before).readers[r]);
    RunOne(before + after, Gate(r));
    hide Run;
  }

  lemma RunOne(moves: seq<Move>, m: Move)
    ensures Run(moves + [m]) == Next(Run(moves), m)
  {
    hide Next;
    assert (moves + [m])[..|moves|] == moves;
  }

  /** A copy with no proof of the present generation, as every warm-decoded one begins, is
      served only after the index has matched it. */
  lemma UnprovedIsJudged(moves: seq<Move>, r: nat, matches: bool)
    requires var s := Run(moves);
      && r in s.readers && s.readers[r].Judging? && s.readers[r].generation == s.generation
      && !ProvedUnder(s, s.readers[r].copy, s.generation)
    ensures var t := Run(moves + [Judge(r, matches)]);
      if matches then Proof(Run(moves).readers[r].copy, Run(moves).generation, ByIndex) in t.proofs
      else t.readers[r].Over? && t.cache.None?
  {
    RunKeeps(moves);
    RunOne(moves, Judge(r, matches));
    var s := Run(moves);
    var copy := s.readers[r].copy;
    assert copy in s.stamps && s.stamps[copy] > 0 ==> ProvedUnder(s, copy, s.stamps[copy]);
    hide Run, ReadersFine, LandingsFine, StampsFine, RecordFine;
  }

  /** Proofs belong to the generation they name, so none made before a remediation counts
      after it. */
  lemma ProofsAreOld(moves: seq<Move>, copy: nat)
    ensures !ProvedUnder(Run(moves + [Distrust]), copy, Run(moves + [Distrust]).generation)
  {
    RunKeeps(moves);
    RunOne(moves, Distrust);
    hide Run, ReadersFine, LandingsFine, StampsFine;
  }
}
