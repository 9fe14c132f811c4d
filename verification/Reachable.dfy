/** Soundness over whole runs: every operation, decode and install included, keeps every
    bucket sound, so no reachable index holds a tombstone that reaches a row. */
module Reachable {
  import opened Base
  import opened Ordered
  import opened Entries
  import opened Rows
  import opened Buckets
  import opened Image
  import opened Index
  import opened Install
  import opened InstallSafety
  import opened Machine
  import opened Soundness
  import Delta

  lemma BucketOfSound(s: Index, name: Text)
    requires AllSound(s.buckets)
    ensures Sound(BucketOf(s, name))
  {
    hide Sound;
    EmptySound();
  }

  lemma WithSound(s: Index, name: Text, c: Cell)
    requires AllSound(s.buckets) && Sound(c.bucket)
    ensures AllSound(WithCell(s, name, c).buckets)
  {
    hide Sound;
  }

  /** Captures, cuts and totals play no part in a bucket's soundness. */
  lemma SameBuckets(s: Index, id: Option<NativeCut>, name: Text, d: Delta.Delta, admitted: bool)
    ensures Invalidated(s).buckets == s.buckets && NotedIf(s, id).buckets == s.buckets
    ensures Opened(s, name).buckets == s.buckets && Opened(s, name).stats == s.stats && NotedIf(s, id).stats == s.stats
    ensures Journaled(s, id, d, admitted).buckets == s.buckets && JournaledNoop(s, id, admitted).buckets == s.buckets
    ensures Journaled(s, id, d, admitted).stats == s.stats && JournaledNoop(s, id, admitted).stats == s.stats
    ensures Invalidated(s).stats == s.stats
  {
    hide Recorded, WellFormed, Contiguous;
  }

  /** A duplicate native event changes nothing at all. */
  lemma SuppressedIdle(s: Index, op: Op)
    requires (op.PutOp? && Suppressed(s, op.id)) || (op.DelOp? && Suppressed(s, op.id))
        || (op.SealOp? && Duplicate(s, op.cut))
    ensures Step(s, op) == s
  {
    hide Duplicate, PutCell, DelCell;
  }

  lemma RunNext(s: Index, ops: seq<Op>, op: Op)
    ensures Run(s, ops + [op]) == Step(Run(s, ops), op)
  {
    hide Step;
    assert (ops + [op])[..|ops|] == ops;
  }

  lemma RejectedPut(c: Cell, key: Text, e: Entry, definitive: bool)
    requires !PutAccepted(c.bucket, key, e.lastModified, definitive)
    ensures PutCell(c, key, e, definitive) == c
  {
    hide InsertRow, Utf8;
  }

  lemma DiscardNext(buckets: map<Text, Bucket>, names: seq<Text>, name: Text)
    requires name in buckets && name !in names
    ensures name in DiscardSome(buckets, names) && DiscardSome(buckets, names)[name] == buckets[name]
    ensures DiscardSome(buckets, names + [name]) == DiscardSome(buckets, names)[name := Discarded(buckets[name])]
  {
    hide Discarded, Utf8;
  }

  lemma CompletedHolds(c: Cell, key: Text, f: Fill)
    requires CompletionOf(c.bucket, key, f).Completed?
    ensures key in CompleteCell(c, key, f).bucket.keys.rows
  {
    hide Replace, AddTally, EntryTally, SubTally;
  }

  lemma PutStepSound(s: Index, name: Text, key: Text, e: Entry, definitive: bool, id: Option<NativeCut>, admitted: bool)
    requires AllSound(s.buckets)
    ensures AllSound(Put(s, name, key, e, definitive, id, admitted).buckets)
  {
    hide Sound, PutCell, Opened, NotedIf, Journaled, JournaledNoop, PutAccepted, Duplicate;
    var s1 := Opened(NotedIf(s, id), name);
    SameBuckets(s, id, name, Delta.Noop, admitted);
    SameBuckets(NotedIf(s, id), id, name, Delta.Noop, admitted);
    BucketOfSound(s1, name);
    PutSound(CellOf(s1, name), key, e, definitive);
    var s2 := WithCell(s1, name, PutCell(CellOf(s1, name), key, e, definitive));
    WithSound(s1, name, PutCell(CellOf(s1, name), key, e, definitive));
    SameBuckets(s2, id, name, Delta.Put(name, key, e), admitted);
  }

  lemma DelStepSound(s: Index, name: Text, key: Text, ts: Time, sweep: bool, id: Option<NativeCut>, admitted: bool)
    requires AllSound(s.buckets)
    ensures AllSound(Del(s, name, key, ts, sweep, id, admitted).buckets)
  {
    hide Sound, DelCell, Opened, NotedIf, Journaled, JournaledNoop, Duplicate, Pruned;
    var s1 := Opened(NotedIf(s, id), name);
    var run := sweep && s1.capture.None?;
    SameBuckets(s, id, name, Delta.Noop, admitted);
    SameBuckets(NotedIf(s, id), id, name, Delta.Noop, admitted);
    BucketOfSound(s1, name);
    DelSound(CellOf(s1, name), key, ts, run);
    var s2 := WithCell(s1, name, DelCell(CellOf(s1, name), key, ts, run));
    WithSound(s1, name, DelCell(CellOf(s1, name), key, ts, run));
    SameBuckets(s2, id, name, Delta.Delete(name, key, BucketOf(s2, name).gone.rows[key]), admitted);
  }

  lemma CompleteStepSound(s: Index, name: Text, key: Text, f: Fill, admitted: bool)
    requires AllSound(s.buckets)
    ensures AllSound(Complete(s, name, key, f, admitted).buckets)
  {
    if name in s.buckets && CompletionOf(s.buckets[name], key, f).Completed? {
      CompleteSound(CellOf(s, name), key, f);
      var s1 := WithCell(s, name, CompleteCell(CellOf(s, name), key, f));
      WithSound(s, name, CompleteCell(CellOf(s, name), key, f));
      SameBuckets(s1, None, name, Delta.Put(name, key, s1.buckets[name].keys.rows[key]), admitted);
      hide Sound, Journaled;
    }
  }

  lemma FenceStepSound(s: Index, name: Text, key: Text, id: Option<NativeCut>, own: bool)
    requires AllSound(s.buckets)
    ensures AllSound(Fence(s, name, key, id, own).buckets)
  {
    hide Sound, NotedIf, Duplicate, FenceBucket;
    SameBuckets(s, id, name, Delta.Noop, true);
    SameBuckets(NotedIf(s, id), id, name, Delta.Noop, true);
    BucketOfSound(s, name);
    FenceSound(BucketOf(s, name), key);
  }

  lemma ListStepSound(s: Index, name: Text, generation: u64, rows: seq<Listed>)
    requires AllSound(s.buckets)
    ensures AllSound(ListPage(s, name, generation, rows).buckets)
  {
    var s1 := Invalidated(s);
    BucketOfSound(s1, name);
    ListRowsSound(CellOf(s1, name), rows);
    hide Sound, ListRows;
    WithSound(s1, name, CellOf(s1, name));
    WithSound(s1, name, ListRows(CellOf(s1, name), rows));
  }

  lemma RebuildStepsSound(s: Index, name: Text, generation: u64)
    requires AllSound(s.buckets)
    ensures AllSound(Resync(s, name).buckets) && AllSound(RemoveBucket(s, name).buckets)
    ensures AllSound(Finish(s, name, generation).buckets)
  {
    hide Sound, Discarded, Resynced, Finished, Replace;
    BucketOfSound(s, name);
    RebuiltSound(BucketOf(s, name));
  }

  lemma DiscardStepSound(s: Index, missed: NativeCut)
    requires AllSound(s.buckets)
    ensures AllSound(DiscardForGap(s, missed).buckets)
  {
    hide Sound, Discarded, StatsWithout, Beyond, Sorted;
    forall n | n in s.buckets ensures Sound(Discarded(s.buckets[n])) { RebuiltSound(s.buckets[n]); }
    assert SkipGap(s, missed).buckets == s.buckets;
  }

  lemma InstallStepSound(s: Index, op: Op)
    requires op.InstallOp? && AllSound(s.buckets)
    ensures AllSound(Step(s, op).buckets)
  {
    hide Sound, AllPrivate, Staged, Carried, Orderable, RowTotal, Utf8;
    var r := Staged(op.image, op.effects, op.caps);
    if r.Ok? && Installable(s, r.value, op.aligned, op.universe, op.caps.rows) {
      StagedPrivate(op.image, op.effects, op.caps);
      InstallIs(s, r.value, op.universe, op.caps.rows);
    }
  }

  lemma ResolveStepSound(s: Index, name: Text, key: Text, token: nat, truth: Authoritative)
    requires AllSound(s.buckets)
    ensures AllSound(Resolve(s, name, key, token, truth).buckets)
  {
    if name in s.buckets {
      ResolveSound(CellOf(s, name), key, token, truth);
      hide Sound, ResolveCell;
      WithSound(s, name, ResolveCell(CellOf(s, name), key, token, truth));
    }
  }

  lemma FeedStepSame(s: Index, cut: NativeCut, epoch: u64, admitted: bool)
    ensures Register(s, cut).buckets == s.buckets && Register(s, cut).stats == s.stats
    ensures Seal(s, cut, admitted).buckets == s.buckets && Seal(s, cut, admitted).stats == s.stats
    ensures Renew(s, cut, epoch, admitted).buckets == s.buckets && Renew(s, cut, epoch, admitted).stats == s.stats
  {
    hide Recorded, RecordedRenewal, WellFormed, Duplicate, Contiguous;
  }

  lemma FeedStepSound(s: Index, op: Op)
    requires op.RegisterOp? || op.SealOp? || op.RenewOp? || op.CaptureOp? || op.RetireOp?
    ensures Step(s, op).buckets == s.buckets && Step(s, op).stats == s.stats
  {
    hide Register, Seal, Renew, Sizable;
    match op {
      case RegisterOp(cut) => FeedStepSame(s, cut, 0, true);
      case SealOp(cut, admitted) => FeedStepSame(s, cut, 0, admitted);
      case RenewOp(sealed, epoch, admitted) => FeedStepSame(s, sealed, epoch, admitted);
      case _ =>
    }
  }

  lemma StepSound(s: Index, op: Op)
    requires AllSound(s.buckets)
    ensures AllSound(Step(s, op).buckets)
  {
    hide AllSound, Put, Del, Complete, Fence, Resolve, ListPage, Resync, RemoveBucket, Finish, DiscardForGap,
         InstallImage, Register, Seal, Renew, BeginCapture, Retire;
    match op {
      case PutOp(b, k, e, definitive, id, admitted) => PutStepSound(s, b, k, e, definitive, id, admitted);
      case DelOp(b, k, at, sweep, id, admitted) => DelStepSound(s, b, k, at, sweep, id, admitted);
      case CompleteOp(b, k, fill, admitted) => CompleteStepSound(s, b, k, fill, admitted);
      case FenceOp(b, k, id, own) => FenceStepSound(s, b, k, id, own);
      case ResolveOp(b, k, token, truth) => ResolveStepSound(s, b, k, token, truth);
      case ListOp(b, generation, rows) => ListStepSound(s, b, generation, rows);
      case ResyncOp(b) => RebuildStepsSound(s, b, 0);
      case RemoveOp(b) => RebuildStepsSound(s, b, 0);
      case FinishOp(b, generation) => RebuildStepsSound(s, b, generation);
      case DiscardOp(missed) => DiscardStepSound(s, missed);
      case InstallOp(_, _, _, _, _) => InstallStepSound(s, op);
      case _ => FeedStepSound(s, op);
    }
  }

  /** A run from an index of sound buckets, the empty one among them, keeps every bucket
      sound. */
  lemma {:induction false} RunSound(s: Index, ops: seq<Op>)
    requires AllSound(s.buckets)
    ensures AllSound(Run(s, ops).buckets)
  {
    hide AllSound, Step;
    if ops != [] {
      RunSound(s, ops[..|ops| - 1]);
      StepSound(Run(s, ops[..|ops| - 1]), ops[|ops| - 1]);
    }
  }

  lemma ReachableSound(ops: seq<Op>)
    ensures AllSound(Run(EMPTY_INDEX, ops).buckets)
  {
    assert AllSound(EMPTY_INDEX.buckets);
    hide AllSound, Run;
    RunSound(EMPTY_INDEX, ops);
  }

  /** In every reachable index a key holding both a row and a tombstone holds the row later,
      so neither the measurement nor the encoder ever meets the contradiction they refuse. */
  lemma NoContradiction(ops: seq<Op>, name: Text, key: Text)
    requires var s := Run(EMPTY_INDEX, ops); name in s.buckets && key in s.buckets[name].gone.rows
    ensures !Contradicts(Run(EMPTY_INDEX, ops).buckets[name], key)
  {
    hide Run;
    ReachableSound(ops);
    assert Sound(Run(EMPTY_INDEX, ops).buckets[name]);
  }
}
