/** Peer bootstrap end to end: a donor's capture, carried as bytes, staged and installed by a
    follower, leaves the follower with the donor's live index. */
module Bootstrap {
  import opened Base
  import opened Entries
  import opened Rows
  import opened Buckets
  import opened Image
  import opened ImageCodec
  import opened ImageRoundTrip
  import opened Index
  import opened Install
  import opened InstallSafety
  import opened Machine
  import opened Soundness
  import opened CaptureSim
  import opened Donor
  import Delta

  /** What the follower is sent and takes: the image at C under exactly its measured size,
      and the journal's effects in order, each decoded under the follower's own limits. */
  ghost predicate Sent(s: Index, universe: seq<Text>, caps: Caps, effects: seq<Delta.Delta>, maxEvent: nat,
                       budget: nat) {
    Donating(s) &&
      var c := s.capture.value;
      && Measurable(c.image, universe, caps) && AllWritable(c.image, universe)
      && |effects| == |c.journal|
      && forall i :: 0 <= i < |effects| ==>
           Delta.DecodeDelta(c.journal[i].effect, maxEvent, caps.names, budget) == Ok(effects[i])
  }

  ghost function ImageOf(s: Index, universe: seq<Text>): seq<byte>
    requires s.capture.Some? && AllWritable(s.capture.value.image, universe)
  {
    ImageLayout(s.capture.value.image, universe)
  }

  ghost function ExactCaps(s: Index, universe: seq<Text>, caps: Caps): Caps
    requires s.capture.Some? && AllWritable(s.capture.value.image, universe)
  {
    var size := Measured(s.capture.value.image, universe);
    caps.(bytes := size.bytes, decoded := size.charge)
  }

  lemma {:induction false} ReplayDecodes(base: map<Text, Bucket>, journal: seq<Record>, maxEvent: nat, cap: nat,
                                         budget: nat, i: nat)
    requires Replay(base, journal, maxEvent, cap, budget).Ok? && i < |journal|
    ensures Delta.DecodeDelta(journal[i].effect, maxEvent, cap, budget).Ok?
  {
    hide ApplyDelta, Delta.DecodeDelta, Utf8;
    if i < |journal| - 1 { ReplayDecodes(base, journal[..|journal| - 1], maxEvent, cap, budget, i); }
  }

  /** The stage a follower reaches echoes the donor, bucket by bucket. */
  lemma StageEchoesDonor(ops: seq<Op>, universe: seq<Text>, caps: Caps, effects: seq<Delta.Delta>, maxEvent: nat,
                         budget: nat)
    requires var s := Run(EMPTY_INDEX, ops);
      && Sent(s, universe, caps, effects, maxEvent, budget)
      && Staged(ImageOf(s, universe), effects, ExactCaps(s, universe, caps)).Ok?
    ensures var s := Run(EMPTY_INDEX, ops);
      AllEcho(Staged(ImageOf(s, universe), effects, ExactCaps(s, universe, caps)).value.buckets, s)
  {
    hide Run, AllWritable, Measurable, AllEcho, Replay, StageAll, ImageLayout, Measured, Delta.DecodeDelta, Utf8;
    var s := Run(EMPTY_INDEX, ops);
    var c := s.capture.value;
    var d := DecodeImage(ImageOf(s, universe), ExactCaps(s, universe, caps)).value;
    RunCovered(ops);
    var ample := EnoughBudget(d.buckets, c.journal, c.maxEvent, c.maxName);
    var _ := FollowerRebuildsLive(ops, universe, caps, ample);
    forall i | 0 <= i < |effects|
      ensures Delta.DecodeDelta(c.journal[i].effect, c.maxEvent, c.maxName, ample) == Ok(effects[i])
    {
      ReplayDecodes(d.buckets, c.journal, c.maxEvent, c.maxName, ample, i);
      Delta.LimitsAgree(c.journal[i].effect, c.maxEvent, c.maxName, ample, maxEvent, caps.names, budget);
    }
    StageAllApplies(StageOf(d), c.journal, effects, c.maxEvent, c.maxName, ample, ExactCaps(s, universe, caps));
  }

  /** The two indexes hold one row and one tombstone of a key, up to what LIST reports. */
  predicate SameKey(copy: Bucket, donor: Bucket, k: Text) {
    && RowOf(copy, k) == (if k in donor.keys.rows then Some(Skeleton(donor.keys.rows[k])) else None)
    && TombOf(copy, k) == TombOf(donor, k)
  }

  /** What the donor's bucket looks like to a peer. */
  function Skeletal(b: Bucket): Bucket { b.(keys := b.keys.(rows := SkeletonMap(b.keys.rows))) }

  lemma EchoIsSkeletal(d: Bucket, b: Bucket, k: Text)
    requires Echoes(d, b)
    ensures RowOf(d, k) == RowOf(Skeletal(b), k) && TombOf(d, k) == TombOf(Skeletal(b), k)
  {}

  /** The merge reads nothing of the peer's bucket but the key's own row and tombstone. */
  lemma SamePeerKey(live: Bucket, d: Bucket, b: Bucket, k: Text)
    requires RowOf(d, k) == RowOf(b, k) && TombOf(d, k) == TombOf(b, k)
    ensures InstalledRow(live, d, k) == InstalledRow(live, b, k)
    ensures InstalledTomb(live, d, k) == InstalledTomb(live, b, k)
  {
    hide RowCarried, TombstoneCarried;
  }

  /** A key of which the live bucket has nothing is taken as the peer has it. */
  lemma NothingToMerge(live: Bucket, b: Bucket, k: Text)
    requires RowOf(live, k).None? && TombOf(live, k).None?
    ensures InstalledRow(live, Skeletal(b), k) == RowOf(Skeletal(b), k)
    ensures InstalledTomb(live, Skeletal(b), k) == TombOf(b, k)
  {}

  lemma InstalledKey(live: Index, peer: Stage, universe: seq<Text>, maxRows: nat, name: Text, k: Text)
    requires AllSound(live.buckets) && Installable(live, peer, true, universe, maxRows) && AllPrivate(peer.buckets)
    ensures var r := InstallStage(live, peer, true, universe, maxRows);
      && RowOf(BucketOf(r, name), k) == InstalledRow(BucketOf(live, name), BucketAt(peer.buckets, name), k)
      && TombOf(BucketOf(r, name), k) == InstalledTomb(BucketOf(live, name), BucketAt(peer.buckets, name), k)
  {
    hide Carried, AllSound, Sound, AllPrivate, InstallStage, Orderable, RowTotal, RowVerdict, TombstoneVerdict, Utf8;
    InstallIs(live, peer, universe, maxRows);
    UniverseIsAll(peer.buckets, universe);
  }

  /** A follower that installs what a donor sent holds, of every key of every bucket, the
      merge of its own row and tombstone with the donor's live ones; of a key it had nothing
      of, exactly the donor's. */
  lemma FollowerCopiesDonor(ops: seq<Op>, universe: seq<Text>, caps: Caps, effects: seq<Delta.Delta>,
                            maxEvent: nat, budget: nat, follower: Index, name: Text, k: Text)
    requires var s := Run(EMPTY_INDEX, ops);
      && Sent(s, universe, caps, effects, maxEvent, budget) && AllSound(follower.buckets)
      && var r := Staged(ImageOf(s, universe), effects, ExactCaps(s, universe, caps));
         r.Ok? && Installable(follower, r.value, true, universe, caps.rows)
    ensures var s := Run(EMPTY_INDEX, ops);
      var op := InstallOp(ImageOf(s, universe), effects, ExactCaps(s, universe, caps), true, universe);
      var (own, donor, r) := (BucketOf(follower, name), BucketOf(s, name), BucketOf(Step(follower, op), name));
      && RowOf(r, k) == InstalledRow(own, Skeletal(donor), k) && TombOf(r, k) == InstalledTomb(own, Skeletal(donor), k)
      && (RowOf(own, k).None? && TombOf(own, k).None? ==> SameKey(r, donor, k))
  {
    var s := Run(EMPTY_INDEX, ops);
    hide Run, Measurable, AllWritable, Echoes, ImageOf, Staged, Installable, InstallStage, InstalledRow, InstalledTomb,
         AllSound, AllPrivate, Utf8;
    var (image, exact) := (ImageOf(s, universe), ExactCaps(s, universe, caps));
    var peer := Staged(image, effects, exact).value;
    StageEchoesDonor(ops, universe, caps, effects, maxEvent, budget);
    StagedPrivate(image, effects, exact);
    InstalledKey(follower, peer, universe, caps.rows, name, k);
    var (own, donor, d) := (BucketOf(follower, name), BucketOf(s, name), BucketAt(peer.buckets, name));
    assert Echoes(d, donor);
    EchoIsSkeletal(d, donor, k);
    SamePeerKey(own, d, Skeletal(donor), k);
    if RowOf(own, k).None? && TombOf(own, k).None? { NothingToMerge(own, donor, k); }
  }
}
