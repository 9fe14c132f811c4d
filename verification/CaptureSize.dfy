/** The size taken from the tallies at C and the size measured later from the snapshot are
    one size (src/index/fleet/capture.rs). */
module CaptureSize {
  import opened Base
  import opened Entries
  import opened Rows
  import opened Buckets
  import opened Image
  import opened Index
  import opened Install
  import opened Machine
  import opened Soundness
  import opened Reachable
  import Delta

  lemma {:induction false} SnapshotTallied(buckets: map<Text, Bucket>, names: seq<Text>)
    requires forall name :: name in names ==> name in buckets
    ensures TalliedUpTo(Snapshot(buckets), names) == TalliedUpTo(buckets, names)
  {
    hide NameSize, Utf8;
    if names != [] { SnapshotTallied(buckets, names[..|names| - 1]); }
  }

  // ----- the image of a capture -----

  predicate SameImage(s: Index, t: Index) {
    t.capture.Some? ==> s.capture.Some? && t.capture.value.image == s.capture.value.image
  }

  lemma RecordsKeepImage(s: Index, id: Option<NativeCut>, name: Text, d: Delta.Delta, admitted: bool)
    ensures SameImage(s, Invalidated(s)) && SameImage(s, NotedIf(s, id)) && SameImage(s, Opened(s, name))
    ensures SameImage(s, Journaled(s, id, d, admitted)) && SameImage(s, JournaledNoop(s, id, admitted))
  {
    hide WellFormed, Contiguous, Delta.EncodeDelta, Utf8;
  }

  lemma PutKeepsImage(s: Index, name: Text, key: Text, e: Entry, definitive: bool, id: Option<NativeCut>,
                      admitted: bool)
    ensures SameImage(s, Put(s, name, key, e, definitive, id, admitted))
  {
    hide PutCell, PutAccepted, CellOf, Suppressed, NotedIf, Opened, Journaled, JournaledNoop, Utf8;
    RecordsKeepImage(s, id, name, Delta.Noop, admitted);
    RecordsKeepImage(NotedIf(s, id), id, name, Delta.Noop, admitted);
    var s1 := Opened(NotedIf(s, id), name);
    RecordsKeepImage(WithCell(s1, name, PutCell(CellOf(s1, name), key, e, definitive)), id,
                     name, Delta.Put(name, key, e), admitted);
  }

  lemma DelKeepsImage(s: Index, name: Text, key: Text, at: Time, sweep: bool, id: Option<NativeCut>, admitted: bool)
    ensures SameImage(s, Del(s, name, key, at, sweep, id, admitted))
  {
    hide DelCell, Pruned, CellOf, Suppressed, NotedIf, Opened, Journaled, JournaledNoop, Utf8;
    RecordsKeepImage(s, id, name, Delta.Noop, admitted);
    RecordsKeepImage(NotedIf(s, id), id, name, Delta.Noop, admitted);
    var s1 := Opened(NotedIf(s, id), name);
    var run := sweep && s1.capture.None?;
    var s2 := WithCell(s1, name, DelCell(CellOf(s1, name), key, at, run));
    RecordsKeepImage(s2, id, name, Delta.Delete(name, key, BucketOf(s2, name).gone.rows[key]), admitted);
  }

  lemma CompleteKeepsImage(s: Index, name: Text, key: Text, f: Fill, admitted: bool)
    ensures SameImage(s, Complete(s, name, key, f, admitted))
  {
    hide CompleteCell, CompletionOf, Journaled, Utf8;
    if name in s.buckets && CompletionOf(s.buckets[name], key, f).Completed? {
      var s1 := WithCell(s, name, CompleteCell(CellOf(s, name), key, f));
      CompletedHolds(CellOf(s, name), key, f);
      RecordsKeepImage(s1, None, name, Delta.Put(name, key, s1.buckets[name].keys.rows[key]), admitted);
    }
  }

  lemma SealKeepsImage(s: Index, cut: NativeCut, admitted: bool)
    ensures SameImage(s, Seal(s, cut, admitted))
  {
    hide Noted, Duplicate, JournaledNoop, Journaled, Invalidated, Opened;
    RecordsKeepImage(s, Some(cut), [], Delta.Noop, admitted);
    RecordsKeepImage(Noted(s, cut), Some(cut), [], Delta.Noop, admitted);
  }

  lemma RenewKeepsImage(s: Index, sealed: NativeCut, epoch: u64, admitted: bool)
    ensures SameImage(s, Renew(s, sealed, epoch, admitted))
  {
    hide Delta.EncodeDelta, Utf8;
  }

  lemma FenceKeepsImage(s: Index, name: Text, key: Text, id: Option<NativeCut>, own: bool)
    ensures SameImage(s, Fence(s, name, key, id, own))
  {
    hide NotedIf, Duplicate, Journaled, JournaledNoop, FenceBucket, BucketOf, Utf8;
    RecordsKeepImage(s, id, name, Delta.Noop, true);
    RecordsKeepImage(NotedIf(s, id), id, name, Delta.Noop, true);
  }

  lemma OtherKeepsImage(s: Index, op: Op)
    requires !op.PutOp? && !op.DelOp? && !op.CompleteOp? && !op.CaptureOp?
    requires !op.SealOp? && !op.RenewOp? && !op.FenceOp?
    ensures SameImage(s, Step(s, op))
  {
    hide InstallImage, ResolveCell, ListRows, Replace, Beyond, Rebuilding, Resynced, Finished, CellOf, BucketOf,
         DiscardBuckets, Utf8;
    match op {
      case DiscardOp(missed) => DiscardKeepsImage(SkipGap(s, missed));
      case InstallOp(_, _, _, _, _) => InstallKeepsImage(s, op);
      case _ =>
    }
  }

  lemma InstallKeepsImage(s: Index, op: Op)
    requires op.InstallOp?
    ensures SameImage(s, Step(s, op))
  {
    hide Staged, Installable, Carried, Utf8;
  }

  lemma DiscardKeepsImage(s: Index)
    ensures SameImage(s, DiscardBuckets(s))
  {
    hide StatsWithout, Utf8;
  }

  /** No operation but the next capture changes the image taken at C. */
  lemma ImageStays(s: Index, op: Op)
    requires !op.CaptureOp?
    ensures SameImage(s, Step(s, op))
  {
    hide SameImage, Put, Del, Complete, Fence, Seal, Renew;
    match op {
      case PutOp(b, k, e, definitive, id, admitted) => PutKeepsImage(s, b, k, e, definitive, id, admitted);
      case DelOp(b, k, at, sweep, id, admitted) => DelKeepsImage(s, b, k, at, sweep, id, admitted);
      case CompleteOp(b, k, fill, admitted) => CompleteKeepsImage(s, b, k, fill, admitted);
      case FenceOp(b, k, id, own) => FenceKeepsImage(s, b, k, id, own);
      case SealOp(cut, admitted) => SealKeepsImage(s, cut, admitted);
      case RenewOp(sealed, epoch, admitted) => RenewKeepsImage(s, sealed, epoch, admitted);
      case _ => OtherKeepsImage(s, op);
    }
  }

  lemma {:induction false} RunKeepsImage(s: Index, ops: seq<Op>)
    requires forall i :: 0 <= i < |ops| ==> !ops[i].CaptureOp?
    ensures SameImage(s, Run(s, ops))
  {
    hide Step;
    if ops != [] {
      RunKeepsImage(s, ops[..|ops| - 1]);
      ImageStays(Run(s, ops[..|ops| - 1]), ops[|ops| - 1]);
    }
  }

  // ----- one size -----

  lemma SoundTallied(buckets: map<Text, Bucket>)
    requires AllSound(buckets)
    ensures AllTallied(Snapshot(buckets))
  {
    hide KeysTallied, GoneTallied, Exclusive, Owned, FloorsHold, Utf8;
    forall name | name in buckets
      ensures KeysTallied(buckets[name].keys) && GoneTallied(buckets[name].gone)
    {
      assert Sound(buckets[name]);
    }
  }

  /** In every run and whatever has happened since C, a snapshot the measurement accepts
      measures what the tallies said then: no size is ever refused as changed. */
  lemma MeasuredIsSized(ops: seq<Op>, universe: seq<Text>, caps: Caps, maxEvent: nat, since: seq<Op>)
    requires Sizable(Run(EMPTY_INDEX, ops).buckets, universe, caps)
    requires forall i :: 0 <= i < |since| ==> !since[i].CaptureOp?
    ensures var s := Run(EMPTY_INDEX, ops);
      var u := Run(Step(s, CaptureOp(universe, caps, maxEvent, true)), since);
      u.capture.Some? && Measurable(u.capture.value.image, universe, caps) ==>
        Measured(u.capture.value.image, universe) == Tallied(s.buckets, universe)
  {
    hide Run, Step, AllSound, Measured, Measurable, Sizable, Snapshot, Tallied, Utf8;
    var s := Run(EMPTY_INDEX, ops);
    ReachableSound(ops);
    CaptureTakes(s, universe, caps, maxEvent);
    RunKeepsImage(Step(s, CaptureOp(universe, caps, maxEvent, true)), since);
    CapturedSize(s.buckets, universe, caps);
  }

  lemma CaptureTakes(s: Index, universe: seq<Text>, caps: Caps, maxEvent: nat)
    requires Sizable(s.buckets, universe, caps)
    ensures var t := Step(s, CaptureOp(universe, caps, maxEvent, true));
      t.capture.Some? && t.capture.value.image == Snapshot(s.buckets)
  {
    hide Sizable, Snapshot, Utf8;
  }

  lemma CapturedSize(buckets: map<Text, Bucket>, universe: seq<Text>, caps: Caps)
    requires AllSound(buckets) && Sizable(buckets, universe, caps)
    ensures var image := Snapshot(buckets);
      Measurable(image, universe, caps) ==> Measured(image, universe) == Tallied(buckets, universe)
  {
    hide AllSound, AllTallied, Measured, TalliedUpTo, HeaderSize, Snapshot, RowsMeasurable, Ready, NameAllowed, Utf8;
    var image := Snapshot(buckets);
    SoundTallied(buckets);
    if Measurable(image, universe, caps) {
      SnapshotTallied(buckets, universe);
      SizeAgreement(image, universe, caps);
    }
  }
}
