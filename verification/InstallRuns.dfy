/** An install as one operation of any run: what it leaves of every key, fence and bucket. */
module InstallRuns {
  import opened Base
  import opened Ordered
  import opened Entries
  import opened Rows
  import opened Buckets
  import opened Image
  import opened Index
  import opened Install
  import opened InstallSafety
  import opened Machine
  import opened Soundness
  import opened Reachable
  import Delta

  /** Neither side's effects on the key are lost to anything but a later one, save the live
      row of the one corner. */
  ghost predicate KeySafe(live: Bucket, peer: Bucket, row: Option<Entry>, tomb: Option<Time>, k: Text) {
    && (k in live.keys.rows ==> (Survives(live.keys.rows[k], row, tomb) <==> !CoverDeleted(live, peer, k)))
    && (k in live.gone.rows ==>
          || (tomb.Some? && tomb.value >= live.gone.rows[k])
          || (row.Some? && row.value.lastModified > live.gone.rows[k]))
    && (k in peer.keys.rows ==> Survives(peer.keys.rows[k], row, tomb))
    && (k in peer.gone.rows ==> tomb.Some? && tomb.value >= peer.gone.rows[k])
  }

  lemma MergedSafe(live: Bucket, peer: Bucket, k: Text)
    requires Exclusive(live) && Orderable(live, peer)
    ensures KeySafe(live, peer, InstalledRow(live, peer, k), InstalledTomb(live, peer, k), k)
  {
    hide Survives, CoverDeleted, Orderable, InstalledRow, InstalledTomb, Utf8;
    if k in live.keys.rows { RowSurvives(live, peer, k); }
    if k in live.gone.rows { TombstoneSurvives(live, peer, k); }
    CandidateSurvives(live, peer, k);
  }

  lemma CopiedSafe(peer: Bucket, k: Text)
    ensures KeySafe(EMPTY_BUCKET, peer, RowOf(peer, k), TombOf(peer, k), k)
  {}

  /** What an accepted install leaves of one bucket of the universe, and of one of its keys. */
  ghost predicate InstalledSafely(s: Index, peer: Stage, t: Index, name: Text, k: Text) {
    && name in t.buckets && name in peer.buckets
    && var (before, after) := (BucketOf(s, name), t.buckets[name]);
       && after.synced && after.rebuild.None?
       && after.generation == before.generation + 1 && after.epoch == before.epoch && after.fences == before.fences
       && KeySafe(before, peer.buckets[name], RowOf(after, k), TombOf(after, k), k)
  }

  /** In any run, an install either changes nothing or leaves exactly the universe, every
      bucket complete in its next generation with its own fences and epoch, and every key
      of every bucket safe. */
  lemma InstallIsSafe(ops: seq<Op>, image: seq<byte>, effects: seq<Delta.Delta>, caps: Caps, aligned: bool,
                      universe: seq<Text>, k: Text)
    ensures var s := Run(EMPTY_INDEX, ops);
      var t := Step(s, InstallOp(image, effects, caps, aligned, universe));
      var staged := Staged(image, effects, caps);
      if staged.Err? || !Installable(s, staged.value, aligned, universe, caps.rows) then t == s else
      && (forall name :: name in t.buckets <==> name in universe)
      && (forall name :: name in universe ==> InstalledSafely(s, staged.value, t, name, k))
      && t.cuts == s.cuts && t.capture.None?
  {
    hide Run, Step, AllSound, AllPrivate, Staged, InstallStage, InstalledSafely, Installable, Utf8;
    var s := Run(EMPTY_INDEX, ops);
    ReachableSound(ops);
    InstallStep(s, image, effects, caps, aligned, universe);
    var staged := Staged(image, effects, caps);
    if staged.Ok? {
      StagedPrivate(image, effects, caps);
      StageSafe(s, staged.value, aligned, universe, caps.rows, k);
    }
  }

  lemma InstallStep(s: Index, image: seq<byte>, effects: seq<Delta.Delta>, caps: Caps, aligned: bool,
                    universe: seq<Text>)
    ensures Step(s, InstallOp(image, effects, caps, aligned, universe)) ==
            match Staged(image, effects, caps)
            case Err(_) => s
            case Ok(peer) => InstallStage(s, peer, aligned, universe, caps.rows)
  {
    hide Staged, InstallStage;
  }

  lemma StageSafe(s: Index, peer: Stage, aligned: bool, universe: seq<Text>, maxRows: nat, k: Text)
    requires AllSound(s.buckets) && AllPrivate(peer.buckets)
    ensures var t := InstallStage(s, peer, aligned, universe, maxRows);
      if !Installable(s, peer, aligned, universe, maxRows) then t == s else
      && (forall name :: name in t.buckets <==> name in universe)
      && (forall name :: name in universe ==> InstalledSafely(s, peer, t, name, k))
      && t.cuts == s.cuts && t.capture.None?
  {
    hide Sound, AllPrivate, Carried, InstalledSafely, InstalledFrom, Coverable, Utf8;
    if Installable(s, peer, aligned, universe, maxRows) {
      Aligned(s, peer, aligned, universe, maxRows);
      InstallIs(s, peer, universe, maxRows);
      var t := InstallStage(s, peer, aligned, universe, maxRows);
      forall name | name in universe ensures InstalledSafely(s, peer, t, name, k) {
        Safely(s, peer, t, aligned, universe, maxRows, name, k);
      }
    }
  }

  lemma Aligned(s: Index, peer: Stage, aligned: bool, universe: seq<Text>, maxRows: nat)
    requires Installable(s, peer, aligned, universe, maxRows)
    ensures aligned && forall name :: name in universe ==> name in peer.buckets
  {}

  lemma Safely(s: Index, peer: Stage, t: Index, aligned: bool, universe: seq<Text>, maxRows: nat, name: Text, k: Text)
    requires Installable(s, peer, aligned, universe, maxRows) && AllSound(s.buckets)
    requires name in universe && name in t.buckets && InstalledFrom(t.buckets[name], s, peer.buckets[name], name)
    ensures InstalledSafely(s, peer, t, name, k)
  {
    hide KeySafe, Orderable, InstalledRow, InstalledTomb, RowTotal, Ascending, Utf8;
    if name in s.buckets {
      assert Sound(s.buckets[name]);
      MergedSafe(s.buckets[name], peer.buckets[name], k);
    } else {
      CopiedSafe(peer.buckets[name], k);
    }
  }
}
