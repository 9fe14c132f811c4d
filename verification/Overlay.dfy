/** The rebuild overlay: what a finished rebuild holds of each key, whatever LIST pages,
    observations, mutations, fences and resolutions ran meanwhile and in whatever order. */
module Overlay {
  import opened Base
  import opened Entries
  import opened Rows
  import opened Buckets
  import opened Index
  import opened Install
  import opened Machine
  import opened Soundness
  import opened Reachable
  import opened KeyHistory
  import opened Fences
  import Delta

  // ----- generations -----

  function GenerationOf(s: Index, name: Text): u64 { BucketOf(s, name).generation }

  predicate Advanced(s: Index, t: Index, name: Text) { GenerationOf(t, name) == NextGeneration(GenerationOf(s, name)) }

  /** An operation leaves a bucket's generation alone, ending its rebuild at most, or moves
      to the next one. */
  ghost predicate GenerationMove(s: Index, op: Op, name: Text) {
    var (b, r) := (BucketOf(s, name), BucketOf(Step(s, op), name));
    && (Advanced(s, Step(s, op), name) || (r.generation == b.generation
                                           && (r.rebuild == b.rebuild || r.rebuild == None)))
    && (b.rebuild.Some? && Turns(s, op, name) ==> Advanced(s, Step(s, op), name) || r.rebuild == None)
  }

  lemma GenerationMoves(s: Index, op: Op, name: Text)
    requires AllSound(s.buckets) && !Removes(op, name)
    ensures GenerationMove(s, op, name)
  {
    if !Turns(s, op, name) {
      SoundFollows(s, op, name, name);
      hide Step, AllSound, Turns, ViewOf, Unfold, EventsOf;
    } else {
      TurnMoves(s, op, name);
    }
  }

  lemma TurnMoves(s: Index, op: Op, name: Text)
    requires AllSound(s.buckets) && !Removes(op, name) && Turns(s, op, name)
    ensures GenerationMove(s, op, name)
  {
    hide AllSound, Utf8, InstallImage;
    match op {
      case InstallOp(_, _, _, _, _) => InstallMoves(s, op, name);
      case DiscardOp(_) => DiscardMoves(s, op, name);
      case _ => hide Replace;
    }
  }

  lemma DiscardMoves(s: Index, op: Op, name: Text)
    requires op.DiscardOp?
    ensures GenerationMove(s, op, name)
  {
    hide StatsWithout, Beyond, Utf8;
    assert SkipGap(s, op.missed).buckets == s.buckets;
  }

  lemma InstallMoves(s: Index, op: Op, name: Text)
    requires op.InstallOp? && AllSound(s.buckets)
    ensures GenerationMove(s, op, name)
  {
    hide AllSound, Step, NextGeneration, Utf8;
    InstallTurns(s, op, name);
  }

  function Advances(s: Index, ops: seq<Op>, name: Text): nat {
    if ops == [] then 0 else
      var before := ops[..|ops| - 1];
      Advances(s, before, name) + if Advanced(Run(s, before), Run(s, ops), name) then 1 else 0
  }

  lemma NextIs(g: u64, a: nat)
    ensures NextGeneration((g + a) % 0x1_0000_0000_0000_0000) == (g + a + 1) % 0x1_0000_0000_0000_0000
  {}

  /** A bucket's generation counts its resyncs, discards and installs, modulo 2^64. */
  lemma {:induction false} GenerationCounts(s: Index, ops: seq<Op>, name: Text)
    requires AllSound(s.buckets) && Keeps(ops, name)
    ensures GenerationOf(Run(s, ops), name) ==
        (GenerationOf(s, name) + Advances(s, ops, name)) % 0x1_0000_0000_0000_0000
    ensures Advances(s, ops, name) <= |ops|
  {
    hide Step, AllSound;
    if ops != [] {
      var n := |ops| - 1;
      GenerationCounts(s, ops[..n], name);
      RunSound(s, ops[..n]);
      GenerationMoves(Run(s, ops[..n]), ops[n], name);
      NextIs(GenerationOf(s, name), Advances(s, ops[..n], name));
      hide Turns, NextGeneration;
    }
  }

  lemma FewAdvances(g: u64, a: nat)
    requires 0 < a < U64_LIMIT
    ensures (g + a) % 0x1_0000_0000_0000_0000 != g
  {}

  /** Rebuilding at the end of the run under the generation it began with, the bucket never
      turned on the way. */
  ghost predicate Unturned(s: Index, ops: seq<Op>, name: Text, generation: u64) {
    forall i: nat {:trigger ops[..i]} :: i <= |ops| ==>
      && Rebuilding(BucketOf(Run(s, ops[..i]), name), generation)
      && (i < |ops| ==> !Turns(Run(s, ops[..i]), ops[i], name))
  }

  lemma StillThere(s: Index, op: Op, name: Text, generation: u64)
    requires AllSound(s.buckets) && !Removes(op, name) && !Advanced(s, Step(s, op), name)
    requires Rebuilding(BucketOf(Step(s, op), name), generation)
    ensures Rebuilding(BucketOf(s, name), generation) && !Turns(s, op, name)
  {
    hide Step, AllSound, Turns, NextGeneration, Utf8;
    GenerationMoves(s, op, name);
  }

  lemma {:induction false} StillRebuilding(s: Index, ops: seq<Op>, name: Text, generation: u64)
    requires AllSound(s.buckets) && Keeps(ops, name) && Advances(s, ops, name) == 0
    requires Rebuilding(BucketOf(Run(s, ops), name), generation)
    ensures Unturned(s, ops, name, generation)
  {
    hide Step, AllSound, Turns, Utf8;
    if ops == [] {
      assert ops[..0] == ops;
    } else {
      var n := |ops| - 1;
      RunSound(s, ops[..n]);
      StillThere(Run(s, ops[..n]), ops[n], name, generation);
      StillRebuilding(s, ops[..n], name, generation);
      forall i: nat | i <= |ops|
        ensures Rebuilding(BucketOf(Run(s, ops[..i]), name), generation)
        ensures i < |ops| ==> !Turns(Run(s, ops[..i]), ops[i], name)
      {
        if i <= n { assert ops[..i] == ops[..n][..i]; } else { assert ops[..i] == ops; }
      }
    }
  }

  lemma NeverTurned(s: Index, ops: seq<Op>, name: Text)
    requires AllSound(s.buckets) && Keeps(ops, name) && |ops| < U64_LIMIT
    requires Rebuilding(BucketOf(Run(s, ops), name), GenerationOf(s, name))
    ensures Unturned(s, ops, name, GenerationOf(s, name))
  {
    hide Run, AllSound, Unturned;
    GenerationCounts(s, ops, name);
    if Advances(s, ops, name) > 0 {
      FewAdvances(GenerationOf(s, name), Advances(s, ops, name));
      assert false;
    }
    StillRebuilding(s, ops, name, GenerationOf(s, name));
  }

  /** Once a bucket has moved on, no page or completion of its former generation is ever
      accepted again. */
  lemma FormerGenerationStale(s: Index, op: Op, ops: seq<Op>, name: Text)
    requires AllSound(s.buckets) && !Removes(op, name) && Keeps(ops, name) && |ops| + 1 < U64_LIMIT
    requires Advanced(s, Step(s, op), name)
    ensures !Rebuilding(BucketOf(Run(Step(s, op), ops), name), GenerationOf(s, name))
  {
    hide Run, Step, AllSound, Advances, Utf8, Keeps, Removes;
    StepSound(s, op);
    var t := Step(s, op);
    GenerationCounts(t, ops, name);
    var (g, a) := (GenerationOf(s, name), Advances(t, ops, name));
    NextIs(g, 0);
    assert GenerationOf(t, name) as int == (g as int + 1) % 0x1_0000_0000_0000_0000;
    Shifted(g, a);
  }

  lemma Shifted(g: u64, a: nat)
    requires a + 1 < U64_LIMIT
    ensures ((g + 1) % 0x1_0000_0000_0000_0000 + a) % 0x1_0000_0000_0000_0000 != g
  {}

  /** A page or completion of any other generation leaves the whole bucket as it was. */
  lemma StaleChangesNothing(s: Index, name: Text, generation: u64, rows: seq<Listed>)
    requires !Rebuilding(BucketOf(s, name), generation)
    ensures BucketOf(ListPage(s, name, generation, rows), name) == BucketOf(s, name)
    ensures BucketOf(Finish(s, name, generation), name) == BucketOf(s, name)
  {
    SameBuckets(s, None, name, Delta.Noop, true);
  }

  // ----- the history of a key through the rebuild -----

  function History(s: Index, ops: seq<Op>, name: Text, key: Text): seq<KeyEvent> {
    if ops == [] then [] else
      var before := ops[..|ops| - 1];
      History(s, before, name, key) + EventsOf(Run(s, before), ops[|ops| - 1], name, key)
  }

  lemma {:induction false} ViewIsHistory(s: Index, ops: seq<Op>, name: Text, key: Text, generation: u64)
    requires Unturned(s, ops, name, generation)
    ensures ViewOf(BucketOf(Run(s, ops), name), key) ==
        Unfold(ViewOf(BucketOf(s, name), key), true, History(s, ops, name, key))
  {
    hide Step, Turns, EventsOf, ViewOf, Happen, Unfold;
    assert ops[..|ops|] == ops;
    if ops == [] {
      UnfoldNone(ViewOf(BucketOf(s, name), key), true);
    } else {
      var n := |ops| - 1;
      var now := Run(s, ops[..n]);
      assert Unturned(s, ops[..n], name, generation) by {
        forall i: nat | i <= n
          ensures Rebuilding(BucketOf(Run(s, ops[..n][..i]), name), generation)
          ensures i < n ==> !Turns(Run(s, ops[..n][..i]), ops[..n][i], name)
        {
          assert ops[..n][..i] == ops[..i];
        }
      }
      ViewIsHistory(s, ops[..n], name, key, generation);
      StepFollows(now, ops[n], name, key);
      UnfoldConcat(ViewOf(BucketOf(s, name), key), true, History(s, ops[..n], name, key),
                   EventsOf(now, ops[n], name, key));
    }
  }

  // ----- what a history means -----

  datatype Known = Known(row: Option<Entry>, tomb: Option<Time>)

  predicate Definitive(ev: KeyEvent) { ev.Overwritten? || ev.Deleted? || ev.Confirmed? }

  /** Plain last-writer-wins over definitive mutations, with resolutions taken at their word
      and completions filling what is held. Pages, observations and fences do not count. */
  function Knowing(k: Known, ev: KeyEvent): Known {
    match ev
    case Overwritten(e) =>
      if (k.tomb.Some? && k.tomb.value >= e.lastModified) || (k.row.Some? && k.row.value.lastModified > e.lastModified)
      then k
      else k.(row := Some(e))
    case Deleted(at) =>
      Known(if k.row.Some? && k.row.value.lastModified > at then k.row else None, Later(k.tomb, at))
    case Confirmed(Present(e)) => Known(Some(e), None)
    case Confirmed(Absent(now)) => Known(None, Later(k.tomb, now))
    case Completing(f) => k.(row := FilledRow(k.row, f))
    case Forgotten => k.(tomb := None)
    case _ => k
  }

  /** The fold from empty. */
  function Authority(evs: seq<KeyEvent>): Known {
    if evs == [] then Known(None, None) else Knowing(Authority(evs[..|evs| - 1]), evs[|evs| - 1])
  }

  ghost predicate Ruled(evs: seq<KeyEvent>) { exists i :: 0 <= i < |evs| && Definitive(evs[i]) }

  ghost predicate Apart(k: Known) { k.row.Some? && k.tomb.Some? ==> k.tomb.value < k.row.value.lastModified }

  lemma {:induction false} AuthorityApart(evs: seq<KeyEvent>)
    ensures Apart(Authority(evs))
  {
    hide SameVersion;
    if evs != [] { AuthorityApart(evs[..|evs| - 1]); }
  }

  /** From the empty view of a resync, a key is touched exactly when a definitive event
      reached it, and then holds the fold of those; untouched, it holds no tombstone. */
  lemma {:induction false} TouchedIsAuthority(fence: Option<nat>, evs: seq<KeyEvent>)
    ensures var v := Unfold(KeyView(None, None, false, fence), true, evs);
      && (v.touched <==> Ruled(evs))
      && (v.touched ==> Known(v.row, v.tomb) == Authority(evs))
      && (!v.touched ==> v.tomb.None? && Authority(evs) == Known(None, None))
  {
    if evs != [] {
      var n := |evs| - 1;
      TouchedIsAuthority(fence, evs[..n]);
      AuthorityApart(evs[..n]);
      TouchedStep(Unfold(KeyView(None, None, false, fence), true, evs[..n]), Authority(evs[..n]), evs[n]);
      assert Ruled(evs) <==> Ruled(evs[..n]) || Definitive(evs[n]) by {
        if Ruled(evs[..n]) { var i :| 0 <= i < n && Definitive(evs[..n][i]); assert Definitive(evs[i]); }
        if Ruled(evs) { var i :| 0 <= i < |evs| && Definitive(evs[i]); if i < n { assert Definitive(evs[..n][i]); } }
      }
      hide Happen, Knowing, Ruled;
    }
  }

  ghost predicate Tracks(v: KeyView, k: Known) {
    if v.touched then Known(v.row, v.tomb) == k else v.tomb.None? && k == Known(None, None)
  }

  lemma TouchedStep(v: KeyView, k: Known, ev: KeyEvent)
    requires Apart(k) && Tracks(v, k)
    ensures Tracks(Happen(v, true, ev), Knowing(k, ev))
    ensures Happen(v, true, ev).touched <==> v.touched || Definitive(ev)
  {
    hide SameVersion, Filled, Utf8;
  }

  predicate Candidate(ev: KeyEvent) { ev.Observed? || ev.OnPage? }

  /** Last-writer-wins over LIST rows and observations, completions filling what is held. */
  function Merging(row: Option<Entry>, ev: KeyEvent): Option<Entry> {
    match ev
    case Observed(e) => if row.Some? && row.value.lastModified > e.lastModified then row else Some(e)
    case OnPage(e) => if row.Some? && row.value.lastModified > e.lastModified then row else Some(e)
    case Completing(f) => FilledRow(row, f)
    case _ => row
  }

  function Merge(evs: seq<KeyEvent>): Option<Entry> {
    if evs == [] then None else Merging(Merge(evs[..|evs| - 1]), evs[|evs| - 1])
  }

  ghost predicate EverFenced(evs: seq<KeyEvent>) { exists i :: 0 <= i < |evs| && evs[i].Fenced? }

  /** The history a fence leaves to the key: LIST rows stop counting once it is fenced. */
  ghost function Admitted(fenced: bool, evs: seq<KeyEvent>): seq<KeyEvent> {
    if evs == [] then [] else
      var (before, last) := (evs[..|evs| - 1], evs[|evs| - 1]);
      Admitted(fenced, before) + if last.OnPage? && (fenced || EverFenced(before)) then [] else [last]
  }

  /** The token of the last fence, if the key has had one. */
  function LastToken(fence: Option<nat>, evs: seq<KeyEvent>): Option<nat> {
    if evs == [] then fence
    else if evs[|evs| - 1].Fenced? then Some(evs[|evs| - 1].token)
    else LastToken(fence, evs[..|evs| - 1])
  }

  lemma {:induction false} LastTokenIs(fence: Option<nat>, evs: seq<KeyEvent>)
    ensures LastToken(fence, evs).Some? <==> fence.Some? || EverFenced(evs)
  {
    if evs != [] {
      var n := |evs| - 1;
      LastTokenIs(fence, evs[..n]);
      if EverFenced(evs[..n]) { var i :| 0 <= i < n && evs[..n][i].Fenced?; assert evs[i].Fenced?; }
      if EverFenced(evs) { var i :| 0 <= i < |evs| && evs[i].Fenced?; if i < n { assert evs[..n][i].Fenced?; } }
    }
  }

  lemma {:induction false} AdmitsAll(evs: seq<KeyEvent>)
    requires !EverFenced(evs)
    ensures Admitted(false, evs) == evs
  {
    if evs != [] {
      var n := |evs| - 1;
      assert forall i :: 0 <= i < n ==> evs[..n][i] == evs[i];
      AdmitsAll(evs[..n]);
      assert evs == evs[..n] + [evs[n]];
    }
  }

  lemma MergeNext(evs: seq<KeyEvent>, ev: KeyEvent)
    ensures Merge(evs + [ev]) == Merging(Merge(evs), ev)
  {
    assert (evs + [ev])[..|evs|] == evs;
  }

  lemma UnruledStep(row: Option<Entry>, fence: Option<nat>, ev: KeyEvent)
    requires !Definitive(ev)
    ensures Happen(KeyView(row, None, false, fence), true, ev) ==
            KeyView(if ev.OnPage? && fence.Some? then row else Merging(row, ev), None, false,
                    if ev.Fenced? then Some(ev.token) else fence)
  {
    hide FilledRow;
  }

  /** From a resync, a key no mutation or resolution reached holds the merge of what was
      admitted, no tombstone, and its last fence still open. */
  lemma {:induction false} UnruledIsMerge(fence: Option<nat>, evs: seq<KeyEvent>)
    requires !Ruled(evs)
    ensures Unfold(KeyView(None, None, false, fence), true, evs) ==
        KeyView(Merge(Admitted(fence.Some?, evs)), None, false, LastToken(fence, evs))
  {
    if evs != [] {
      var n := |evs| - 1;
      assert forall i :: 0 <= i < n ==> evs[..n][i] == evs[i];
      UnruledIsMerge(fence, evs[..n]);
      LastTokenIs(fence, evs[..n]);
      var admitted := Admitted(fence.Some?, evs[..n]);
      UnruledStep(Merge(admitted), LastToken(fence, evs[..n]), evs[n]);
      MergeNext(admitted, evs[n]);
      hide Ruled, EverFenced, Merge, Merging, Happen;
      assert admitted + [] == admitted;
    }
  }

  lemma UntouchedIsMerge(evs: seq<KeyEvent>)
    requires !Ruled(evs) && !EverFenced(evs)
    ensures Unfold(KeyView(None, None, false, None), true, evs) == KeyView(Merge(evs), None, false, None)
  {
    hide Ruled, EverFenced, Merge, Unfold;
    UnruledIsMerge(None, evs);
    LastTokenIs(None, evs);
    AdmitsAll(evs);
  }

  /** The merged row is as late as any listed or observed one, is missing only when there
      was none, and is one of them unless a completion filled it in. */
  lemma {:induction false} MergeIsLatest(evs: seq<KeyEvent>)
    ensures Merge(evs).None? <==> forall i :: 0 <= i < |evs| ==> !Candidate(evs[i])
    ensures Merge(evs).Some? ==> forall i :: 0 <= i < |evs| && Candidate(evs[i]) ==>
        evs[i].entry.lastModified <= Merge(evs).value.lastModified
    ensures Merge(evs).Some? ==>
        exists i :: 0 <= i < |evs| && Candidate(evs[i]) && evs[i].entry.lastModified == Merge(evs).value.lastModified
    ensures Merge(evs).Some? && (forall i :: 0 <= i < |evs| ==> !evs[i].Completing?) ==>
              exists i :: 0 <= i < |evs| && Candidate(evs[i]) && evs[i].entry == Merge(evs).value
  {
    if evs != [] {
      var n := |evs| - 1;
      MergeIsLatest(evs[..n]);
      hide SameVersion;
      assert forall i :: 0 <= i < n ==> evs[..n][i] == evs[i];
      var m := Merge(evs[..n]);
      if m.Some? {
        var i :| 0 <= i < n && Candidate(evs[..n][i]) && evs[..n][i].entry.lastModified == m.value.lastModified;
        assert Candidate(evs[i]) && evs[i].entry.lastModified == m.value.lastModified;
        if forall j :: 0 <= j < |evs| ==> !evs[j].Completing? {
          var j :| 0 <= j < n && Candidate(evs[..n][j]) && evs[..n][j].entry == m.value;
          assert Candidate(evs[j]) && evs[j].entry == m.value;
        }
      }
      if Candidate(evs[n]) { assert Candidate(evs[n]) && evs[n].entry == evs[n].entry; }
    }
  }

  // ----- the theorem -----

  lemma ResyncedView(s: Index, name: Text, key: Text)
    ensures ViewOf(BucketOf(Resync(s, name), name), key) == KeyView(None, None, false, FenceOf(s, name, key))
  {
    hide Replace, Utf8;
    SameBuckets(s, None, name, Delta.Noop, true);
  }

  /** When a rebuild finishes, each key mutated or resolved since it began holds exactly the
      fold of those from empty. Any other holds the last-writer-wins merge of observations
      and of the LIST rows from before its first fence, with its last fence still open. */
  lemma FinishedRebuild(s: Index, name: Text, ops: seq<Op>, key: Text)
    requires AllSound(s.buckets) && Keeps(ops, name) && |ops| < U64_LIMIT
    requires FinishAccepted(Run(Resync(s, name), ops), name, GenerationOf(Resync(s, name), name))
    ensures var s0 := Resync(s, name);
      var evs := History(s0, ops, name, key);
      var r := BucketOf(Finish(Run(s0, ops), name, GenerationOf(s0, name)), name);
      && r.synced && r.rebuild.None?
      && (Ruled(evs) ==> Known(RowOf(r, key), TombOf(r, key)) == Authority(evs))
      && (!Ruled(evs) ==>
            && Known(RowOf(r, key), TombOf(r, key)) == Known(Merge(Admitted(FenceOf(s, name, key).Some?, evs)), None)
            && ViewOf(r, key).fence == LastToken(FenceOf(s, name, key), evs))
      && (!Ruled(evs) && FenceOf(s, name, key).None? && !EverFenced(evs) ==>
          Known(RowOf(r, key), TombOf(r, key)) == Known(Merge(evs), None))
  {
    hide Run, AllSound, Unturned, Authority, Merge, Ruled, EverFenced, Admitted, LastToken, History, Resync, Unfold,
         Utf8;
    var s0 := Resync(s, name);
    RebuildStepsSound(s, name, 0);
    NeverTurned(s0, ops, name);
    ViewIsHistory(s0, ops, name, key, GenerationOf(s0, name));
    ResyncedView(s, name, key);
    var evs := History(s0, ops, name, key);
    TouchedIsAuthority(FenceOf(s, name, key), evs);
    if !Ruled(evs) {
      UnruledIsMerge(FenceOf(s, name, key), evs);
      if FenceOf(s, name, key).None? && !EverFenced(evs) { UntouchedIsMerge(evs); }
    }
  }
}
