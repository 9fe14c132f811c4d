/** What a donor's journal covers, and what a follower rebuilds from an image and a journal. */
module Donor {
  import opened Base
  import opened Entries
  import opened Rows
  import opened Wire
  import opened Buckets
  import opened Image
  import opened ImageCodec
  import opened ImageRoundTrip
  import opened Index
  import opened Install
  import opened InstallSafety
  import opened Machine
  import opened Reachable
  import opened CaptureSim
  import Delta

  // ----- how one step moves the journal and the cuts -----

  type Cuts = map<seq<byte>, Position>

  /** The one way a record of this identity moves the cuts: a native event by exactly one
      sequence, a renewal from its seal into a later epoch, a local effect not at all. */
  predicate Advances(before: Cuts, id: Identity, after: Cuts) {
    match id
    case Native(cut) =>
      && cut.writer in before && cut.epoch == before[cut.writer].epoch
      && cut.sequence == before[cut.writer].sequence + 1
      && after == before[cut.writer := Position(cut.epoch, cut.sequence)]
    case Renewal(sealed, epoch) =>
      && sealed.writer in before && before[sealed.writer] == Position(sealed.epoch, sealed.sequence)
      && epoch > sealed.epoch
      && after == before[sealed.writer := Position(epoch, 0)]
    case Local(_) => after == before
  }

  ghost predicate Written(effect: seq<byte>, maxEvent: nat, cap: nat) {
    exists d :: Delta.EncodeDelta(d, maxEvent, cap) == Some(effect)
  }

  predicate Continues(c: Capture, c': Capture) {
    c'.valid && c.valid && c'.image == c.image && c'.cuts == c.cuts && c'.maxEvent == c.maxEvent
      && c'.maxName == c.maxName
  }

  /** The journal after a step is the journal before, or that and one record more. */
  ghost predicate Grows(s: Index, t: Index)
    requires s.capture.Some? && t.capture.Some?
  {
    var (c, c') := (s.capture.value, t.capture.value);
    && Continues(c, c')
    && (|| (c'.journal == c.journal && t.cuts == s.cuts)
        || (&& |c'.journal| == |c.journal| + 1 && c'.journal[..|c.journal|] == c.journal
            && Written(c'.journal[|c.journal|].effect, c.maxEvent, c.maxName)
            && Advances(s.cuts, c'.journal[|c.journal|].id, t.cuts)))
  }

  ghost predicate Fresh(t: Index) {
    t.capture.Some? && t.capture.value.journal == [] && t.capture.value.cuts == t.cuts
  }

  ghost predicate JournalStep(s: Index, t: Index) {
    Donating(t) ==> Fresh(t) || (Donating(s) && Grows(s, t))
  }

  lemma RecordedGrows(s: Index, n: Index, id: Option<NativeCut>, d: Delta.Delta, admitted: bool)
    requires Donating(s) && n.capture == s.capture
    requires if id.Some? then Advances(s.cuts, Native(id.value), n.cuts) else n.cuts == s.cuts
    ensures JournalStep(s, Journaled(n, id, d, admitted))
    ensures Donating(Journaled(n, id, d, admitted)) ==>
              var (c, c') := (s.capture.value, Journaled(n, id, d, admitted).capture.value);
              |c'.journal| == |c.journal| + 1 && (id.Some? ==> c'.journal[|c.journal|].id == Native(id.value))
  {
    var t := Journaled(n, id, d, admitted);
    if Donating(t) {
      var c := s.capture.value;
      RecordedIs(c, id, d, admitted);
      assert Written(t.capture.value.journal[|c.journal|].effect, c.maxEvent, c.maxName);
      hide Recorded, Delta.EncodeDelta;
    }
  }

  lemma NoopGrows(s: Index, n: Index, id: Option<NativeCut>, admitted: bool)
    requires Donating(s) && n.capture == s.capture
    requires if id.Some? then Advances(s.cuts, Native(id.value), n.cuts) else n.cuts == s.cuts
    ensures JournalStep(s, JournaledNoop(n, id, admitted))
    ensures Donating(JournaledNoop(n, id, admitted)) && id.Some? ==>
              var (c, c') := (s.capture.value, JournaledNoop(n, id, admitted).capture.value);
              |c'.journal| == |c.journal| + 1 && c'.journal[|c.journal|].id == Native(id.value)
  {
    if id.Some? { RecordedGrows(s, n, id, Delta.Noop, admitted); }
  }

  lemma NotedAdvances(s: Index, id: Option<NativeCut>, name: Text)
    requires Donating(Opened(NotedIf(s, id), name)) && !Suppressed(s, id)
    ensures Donating(s) && Opened(NotedIf(s, id), name).capture == s.capture
    ensures var n := Opened(NotedIf(s, id), name);
      if id.Some? then Advances(s.cuts, Native(id.value), n.cuts) else n.cuts == s.cuts
  {
    StillDonating(s, id, name);
  }

  /** A put or delete that is not a duplicate appends exactly one record of its own event
      while the capture stays valid, whether or not it changed a row. */
  lemma PutRecords(s: Index, name: Text, key: Text, e: Entry, definitive: bool, id: Option<NativeCut>, admitted: bool)
    requires !Suppressed(s, id)
    ensures var t := Put(s, name, key, e, definitive, id, admitted);
      && JournalStep(s, t)
      && (Donating(t) && id.Some? ==>
            Donating(s) && |t.capture.value.journal| == |s.capture.value.journal| + 1
            && t.capture.value.journal[|s.capture.value.journal|].id == Native(id.value))
  {
    hide PutCell, PutAccepted, Opened, NotedIf, Journaled, JournaledNoop, Duplicate, JournalStep, Advances;
    var t := Put(s, name, key, e, definitive, id, admitted);
    if !Donating(t) { NoStep(s, t); return; }
    var s1 := Opened(NotedIf(s, id), name);
    var s2 := WithCell(s1, name, PutCell(CellOf(s1, name), key, e, definitive));
    DonatingBefore(s2, id, Delta.Put(name, key, e), admitted);
    NotedAdvances(s, id, name);
    RecordedGrows(s, s2, id, Delta.Put(name, key, e), admitted);
    NoopGrows(s, s2, id, admitted);
  }

  lemma NoStep(s: Index, t: Index)
    requires !Donating(t)
    ensures JournalStep(s, t)
  {}

  lemma DelRecords(s: Index, name: Text, key: Text, ts: Time, sweep: bool, id: Option<NativeCut>, admitted: bool)
    requires !Suppressed(s, id)
    ensures var t := Del(s, name, key, ts, sweep, id, admitted);
      && JournalStep(s, t)
      && (Donating(t) && id.Some? ==>
            Donating(s) && |t.capture.value.journal| == |s.capture.value.journal| + 1
            && t.capture.value.journal[|s.capture.value.journal|].id == Native(id.value))
  {
    hide DelCell, Pruned, Opened, NotedIf, Journaled, JournaledNoop, Duplicate, JournalStep, Advances;
    var t := Del(s, name, key, ts, sweep, id, admitted);
    if !Donating(t) { NoStep(s, t); return; }
    var s1 := Opened(NotedIf(s, id), name);
    var run := sweep && s1.capture.None?;
    var s2 := WithCell(s1, name, DelCell(CellOf(s1, name), key, ts, run));
    var d := Delta.Delete(name, key, BucketOf(s2, name).gone.rows[key]);
    DonatingBefore(s2, id, d, admitted);
    NotedAdvances(s, id, name);
    RecordedGrows(s, s2, id, d, admitted);
    NoopGrows(s, s2, id, admitted);
  }

  lemma SealRecords(s: Index, cut: NativeCut, admitted: bool)
    requires !Duplicate(s, cut)
    ensures var t := Seal(s, cut, admitted);
      && JournalStep(s, t)
      && (Donating(t) ==>
            Donating(s) && |t.capture.value.journal| == |s.capture.value.journal| + 1
            && t.capture.value.journal[|s.capture.value.journal|].id == Native(cut))
  {
    var t := Seal(s, cut, admitted);
    if !Donating(t) { NoStep(s, t); return; }
    var n := Noted(s, cut);
    DonatingBefore(n, Some(cut), Delta.Noop, admitted);
    assert n.capture == s.capture && Advances(s.cuts, Native(cut), n.cuts);
    hide JournalStep, Journaled;
    NoopGrows(s, n, Some(cut), admitted);
  }

  /** A renewal that moves a writer appends exactly one record, of that renewal, while the
      capture stays valid; one that moves nothing appends nothing. */
  lemma RenewRecords(s: Index, sealed: NativeCut, epoch: u64, admitted: bool)
    ensures var t := Renew(s, sealed, epoch, admitted);
      && JournalStep(s, t)
      && (Donating(t) ==> Donating(s))
      && (Donating(t) && t.cuts == s.cuts ==> t == s)
      && (Donating(t) && t.cuts != s.cuts ==>
            && |t.capture.value.journal| == |s.capture.value.journal| + 1
            && t.capture.value.journal[|s.capture.value.journal|].id == Renewal(sealed, epoch))
  {
    var t := Renew(s, sealed, epoch, admitted);
    if Donating(t) && t != s {
      var (c, c') := (s.capture.value, t.capture.value);
      assert c' == RecordedRenewal(c, sealed, epoch, admitted);
      var effect := Delta.EncodeDelta(Delta.Noop, c.maxEvent, c.maxName);
      hide Delta.EncodeDelta;
      assert effect.Some? && c'.journal == c.journal + [Record(Renewal(sealed, epoch), effect.value)];
      assert Written(effect.value, c.maxEvent, c.maxName);
      assert s.cuts[sealed.writer].epoch != t.cuts[sealed.writer].epoch;
    }
  }

  lemma SameGrows(s: Index, t: Index)
    requires t.capture == s.capture && t.cuts == s.cuts
    ensures JournalStep(s, t)
  {}

  lemma OtherRecords(s: Index, op: Op)
    requires op.CompleteOp? || op.ResolveOp? || op.FinishOp? || op.CaptureOp? || op.InstallOp?
    ensures JournalStep(s, Step(s, op))
  {
    hide JournalStep, Staged, Installable, Carried, ResolveCell, CompleteCell, Sizable, Journaled;
    var t := Step(s, op);
    if !Donating(t) { NoStep(s, t); return; }
    match op {
      case CompleteOp(b, k, f, admitted) =>
        if t == s { SameGrows(s, t); } else {
          var n := WithCell(s, b, CompleteCell(CellOf(s, b), k, f));
          CompletedHolds(CellOf(s, b), k, f);
          var d := Delta.Put(b, k, n.buckets[b].keys.rows[k]);
          DonatingBefore(n, None, d, admitted);
          RecordedGrows(s, n, None, d, admitted);
        }
      case CaptureOp(universe, caps, maxEvent, admitted) =>
        if t.capture == s.capture { SameGrows(s, t); } else { FreshStep(s, t); }
      case _ => SameGrows(s, t);
    }
  }

  lemma FreshStep(s: Index, t: Index)
    requires Fresh(t)
    ensures JournalStep(s, t)
  {}

  lemma JournalSteps(s: Index, op: Op)
    ensures JournalStep(s, Step(s, op))
  {
    hide JournalStep, Put, Del, Complete, Fence, Resolve, ListPage, Resync, RemoveBucket, Finish, DiscardForGap,
         InstallImage, Register, Seal, Renew, BeginCapture, Disruptive, Duplicate;
    if Disruptive(s, op) {
      DisruptionWithdraws(s, op);
      NoStep(s, Step(s, op));
      return;
    }
    match op {
      case PutOp(b, k, e, definitive, id, admitted) =>
        if Suppressed(s, id) {
          SuppressedIdle(s, op);
          SameGrows(s, Step(s, op));
        } else {
          PutRecords(s, b, k, e, definitive, id, admitted);
        }
      case DelOp(b, k, at, sweep, id, admitted) =>
        if Suppressed(s, id) {
          SuppressedIdle(s, op);
          SameGrows(s, Step(s, op));
        } else {
          DelRecords(s, b, k, at, sweep, id, admitted);
        }
      case SealOp(cut, admitted) =>
        if Duplicate(s, cut) {
          SuppressedIdle(s, op);
          SameGrows(s, Step(s, op));
        } else {
          SealRecords(s, cut, admitted);
        }
      case RenewOp(sealed, epoch, admitted) => RenewRecords(s, sealed, epoch, admitted);
      case CompleteOp(_, _, _, _) => OtherRecords(s, op);
      case ResolveOp(_, _, _, _) => OtherRecords(s, op);
      case FinishOp(_, _) => OtherRecords(s, op);
      case CaptureOp(_, _, _, _) => OtherRecords(s, op);
      case InstallOp(_, _, _, _, _) => OtherRecords(s, op);
      case _ => IdleGrows(s, op);
    }
  }

  lemma IdleGrows(s: Index, op: Op)
    requires !Disruptive(s, op)
    requires op.FenceOp? || op.ResyncOp? || op.RemoveOp? || op.ListOp? || op.DiscardOp?
        || op.RetireOp? || op.RegisterOp?
    ensures JournalStep(s, Step(s, op))
  {
    hide JournalStep, Duplicate;
    var t := Step(s, op);
    if op.RegisterOp? {
      if Donating(t) { assert t == s; SameGrows(s, t); } else { NoStep(s, t); }
    } else {
      assert t == s;
      SameGrows(s, t);
    }
  }

  // ----- cut coverage over runs -----

  function CutsAfter(cuts: Cuts, journal: seq<Record>): Cuts {
    if journal == [] then cuts else
      var before := CutsAfter(cuts, journal[..|journal| - 1]);
      match journal[|journal| - 1].id
      case Native(cut) => before[cut.writer := Position(cut.epoch, cut.sequence)]
      case Renewal(sealed, epoch) => before[sealed.writer := Position(epoch, 0)]
      case Local(_) => before
  }

  /** Every record follows its writer's position without a gap. */
  predicate Gapless(cuts: Cuts, journal: seq<Record>) {
    journal == [] ||
      (&& Gapless(cuts, journal[..|journal| - 1])
       && Advances(CutsAfter(cuts, journal[..|journal| - 1]), journal[|journal| - 1].id, CutsAfter(cuts, journal)))
  }

  ghost predicate AllWritten(c: Capture) {
    forall i :: 0 <= i < |c.journal| ==> Written(c.journal[i].effect, c.maxEvent, c.maxName)
  }

  ghost predicate Covered(s: Index) {
    Donating(s) ==>
      var c := s.capture.value;
      Gapless(c.cuts, c.journal) && s.cuts == CutsAfter(c.cuts, c.journal) && AllWritten(c)
  }

  lemma StepCovered(s: Index, op: Op)
    requires Covered(s)
    ensures Covered(Step(s, op))
  {
    JournalSteps(s, op);
    var t := Step(s, op);
    hide Step, Written;
    if Donating(t) && !Fresh(t) {
      var (c, c') := (s.capture.value, t.capture.value);
      if |c'.journal| == |c.journal| + 1 && c'.journal[..|c.journal|] == c.journal {
        var n := |c.journal|;
        assert c'.journal[..|c'.journal| - 1] == c.journal;
        assert Advances(s.cuts, c'.journal[n].id, t.cuts) ==> t.cuts == CutsAfter(c'.cuts, c'.journal);
        forall i | 0 <= i < |c'.journal|
          ensures c'.journal == c.journal || Written(c'.journal[i].effect, c'.maxEvent, c'.maxName)
        {
          if i < n { assert c'.journal[i] == c.journal[i]; }
        }
      }
    }
  }

  /** In every run, while a capture is valid its journal follows the cuts at C without a gap
      and ends exactly at the live cuts. */
  lemma {:induction false} RunCovered(ops: seq<Op>)
    ensures Covered(Run(EMPTY_INDEX, ops))
  {
    hide Covered, Step;
    if ops == [] {
      NothingCovered();
    } else {
      RunCovered(ops[..|ops| - 1]);
      StepCovered(Run(EMPTY_INDEX, ops[..|ops| - 1]), ops[|ops| - 1]);
    }
  }

  lemma NothingCovered()
    ensures Covered(EMPTY_INDEX)
  {}

  // ----- a follower rebuilds the live index -----

  /** Every written journal replays in full under a large enough budget. */
  lemma {:induction false} EnoughBudget(base: map<Text, Bucket>, journal: seq<Record>, maxEvent: nat, cap: nat)
    returns (enough: nat)
    requires forall i :: 0 <= i < |journal| ==> Written(journal[i].effect, maxEvent, cap)
    ensures forall budget: nat :: budget >= enough ==> Replay(base, journal, maxEvent, cap, budget).Ok?
  {
    hide ApplyDelta, Delta.EncodeDelta, Delta.DecodeDelta, Delta.DeltaCharge, Utf8;
    if journal == [] {
      enough := 0;
    } else {
      var n := |journal| - 1;
      enough := EnoughBudget(base, journal[..n], maxEvent, cap);
      assert Written(journal[n].effect, maxEvent, cap);
      var d :| Delta.EncodeDelta(d, maxEvent, cap) == Some(journal[n].effect);
      enough := enough + Delta.DeltaCharge(d) + 1;
      forall budget: nat | budget >= enough ensures Replay(base, journal, maxEvent, cap, budget).Ok? {
        Delta.DeltaRoundTrip(d, maxEvent, cap, budget);
      }
    }
  }

  lemma RestoredMirrors(d: Decoded, image: map<Text, Bucket>, universe: seq<Text>, c: Caps)
    requires Covers(image, universe, c) && Restores(d, NOTHING, image, universe)
    ensures MirrorsImage(d.buckets, image)
  {
    hide Mirrors, Ready;
    UniverseIsAll(image, universe);
    forall name ensures name in d.buckets.Keys <==> name in image.Keys {}
  }

  /** Donor to follower, end to end, in every run: the image at C decodes under caps of its
      own measured size, and every replay of the journal the follower's budget admits
      ends in the donor's live rows, without Content-Type and user metadata, and its
      tombstones, bucket by bucket; some budget admits it all. */
  lemma FollowerRebuildsLive(ops: seq<Op>, universe: seq<Text>, caps: Caps, budget: nat) returns (enough: nat)
    requires var s := Run(EMPTY_INDEX, ops);
      Donating(s) && Measurable(s.capture.value.image, universe, caps) && AllWritable(s.capture.value.image, universe)
    ensures var s := Run(EMPTY_INDEX, ops);
      var c := s.capture.value;
      var size := Measured(c.image, universe);
      var d := DecodeImage(ImageLayout(c.image, universe), caps.(bytes := size.bytes, decoded := size.charge));
      && d.Ok?
      && (budget >= enough ==> Replay(d.value.buckets, c.journal, c.maxEvent, c.maxName, budget).Ok?)
      && (Replay(d.value.buckets, c.journal, c.maxEvent, c.maxName, budget).Ok? ==>
            AllEcho(Replay(d.value.buckets, c.journal, c.maxEvent, c.maxName, budget).value, s))
  {
    var s := Run(EMPTY_INDEX, ops);
    var c := s.capture.value;
    var size := Measured(c.image, universe);
    ImageRoundTrips(c.image, universe, caps, size.charge);
    hide Run, DecodeImage, ImageLayout, AllWritable, Replay, AllEcho, Measured;
    var d := DecodeImage(ImageLayout(c.image, universe), caps.(bytes := size.bytes, decoded := size.charge));
    RestoredMirrors(d.value, c.image, universe, caps);
    RunSimulates(ops, d.value.buckets, budget);
    RunCovered(ops);
    enough := EnoughBudget(d.value.buckets, c.journal, c.maxEvent, c.maxName);
  }

  /** A stage that accepts an effect applies exactly it. */
  lemma StageStepApplies(g: Stage, d: Delta.Delta, caps: Caps)
    requires StageStep(g, d, caps).Ok?
    ensures StageStep(g, d, caps).value.buckets == ApplyDelta(g.buckets, d)
  {
    hide KeyInsert, KeyRemove, GoneRaise, GoneInsert, GoneRemove, Replace, DeadSince, NewerRow, Settle, BucketRows;
  }

  /** What the guarded stage holds after a batch is what the plain replay holds. */
  lemma {:induction false} StageAllApplies(g: Stage, journal: seq<Record>, effects: seq<Delta.Delta>, maxEvent: nat,
                                           cap: nat, budget: nat, caps: Caps)
    requires |effects| == |journal|
    requires forall i :: 0 <= i < |journal| ==>
        Delta.DecodeDelta(journal[i].effect, maxEvent, cap, budget) == Ok(effects[i])
    requires StageAll(g, effects, caps).Ok?
    ensures Replay(g.buckets, journal, maxEvent, cap, budget) == Ok(StageAll(g, effects, caps).value.buckets)
  {
    hide StageStep, ApplyDelta, Delta.DecodeDelta;
    if journal != [] {
      var n := |journal| - 1;
      StageAllApplies(g, journal[..n], effects[..n], maxEvent, cap, budget, caps);
      StageStepApplies(StageAll(g, effects[..n], caps).value, effects[n], caps);
    }
  }
}
