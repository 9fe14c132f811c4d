/** The one way a checked install loses a live row, reached by a run of three operations. */
module InstallCorner {
  import opened Base
  import opened Ordered
  import opened Entries
  import opened Rows
  import opened Buckets
  import opened Image
  import opened ImageCodec
  import ImageRoundTrip
  import opened Index
  import opened Install
  import opened InstallSafety
  import opened Machine
  import opened Soundness
  import opened Reachable
  import InstallRuns
  import opened KeyHistory
  import opened Convergence

  /** A delete at second 5 and a put at second 10 of the same key. */
  function Mutations(name: Text, k: Text, e: Entry): seq<Op> {
    [DelOp(name, k, 5 * SECOND, false, None, true), PutOp(name, k, e, true, None, true)]
  }

  /** A donor's bucket: the same version of the row, which it saw at second 3, and no
      tombstone. */
  function DonorBucket(k: Text, e: Entry): Bucket {
    EMPTY_BUCKET.(synced := true, keys := KeyInsert(NO_KEYS, k, e.(lastModified := 3 * SECOND)), stats := StatsOf(e))
  }

  lemma MutatedKey(name: Text, k: Text, e: Entry, key: Text)
    requires e.lastModified == 10 * SECOND
    ensures var b := BucketOf(Run(EMPTY_INDEX, Mutations(name, k, e)), name);
      && b.rebuild.None?
      && RowOf(b, key) == (if key == k then Some(e) else None)
      && TombOf(b, key) == (if key == k then Some(5 * SECOND) else None)
  {
    hide Step, Utf8, Sweep;
    var ops := Mutations(name, k, e);
    assert ops[..1] == [ops[0]] && [ops[0]][..0] == [];
    assert Plain(EMPTY_INDEX, []) && Plain(EMPTY_INDEX, [ops[0]]) && Plain(EMPTY_INDEX, ops);
    ClosedForm(EMPTY_INDEX, ops, name, key);
    assert LatestDelete(None, [], name, key) == None && LatestPut(None, [], name, key) == None;
    assert LatestPut(None, [ops[0]], name, key) == None;
    assert LatestDelete(None, [ops[0]], name, key) == if key == k then Some(5 * SECOND) else None;
    assert LatestPut(None, ops, name, key) == if key == k then Some(e) else None;
  }

  lemma OneBucket(name: Text, k: Text, e: Entry)
    ensures var s := Run(EMPTY_INDEX, Mutations(name, k, e));
      s.buckets.Keys == {name} && s.buckets[name].generation == 0
  {
    hide DelCell, PutCell, Utf8, Recorded;
    var ops := Mutations(name, k, e);
    assert ops[..1] == [ops[0]] && [ops[0]][..0] == [];
    assert Run(EMPTY_INDEX, []) == EMPTY_INDEX;
    var a := Run(EMPTY_INDEX, [ops[0]]);
    assert a == Step(EMPTY_INDEX, ops[0]);
    assert a.buckets == map[name := DelCell(Cell(EMPTY_BUCKET, NO_STATS), k, 5 * SECOND, false).bucket];
    var b := Run(EMPTY_INDEX, ops);
    assert b == Step(a, ops[1]);
    DelViews(Cell(EMPTY_BUCKET, NO_STATS), k, 5 * SECOND, k);
    assert a.buckets[name].touched == {} by { hide GoneInsert, GoneRaise, KeyRemove; UnhiddenDel(k); }
    PutViews(CellOf(a, name), k, e, true, k);
  }

  lemma UnhiddenDel(k: Text)
    ensures DelCell(Cell(EMPTY_BUCKET, NO_STATS), k, 5 * SECOND, false).bucket.touched == {}
  {
    hide GoneInsert, GoneRaise, KeyRemove, Utf8;
  }

  lemma TwoRows(name: Text, k: Text, e: Entry)
    requires e.lastModified == 10 * SECOND
    ensures var s := Run(EMPTY_INDEX, Mutations(name, k, e));
      s.buckets.Keys == {name} && s.buckets[name].generation == 0 && RowTotal(s.buckets, Sorted(s.buckets.Keys)) == 2
  {
    OneBucket(name, k, e);
    var s := Run(EMPTY_INDEX, Mutations(name, k, e));
    forall key ensures
      && RowOf(s.buckets[name], key) == (if key == k then Some(e) else None)
      && TombOf(s.buckets[name], key) == (if key == k then Some(5 * SECOND) else None)
    {
      MutatedKey(name, k, e, key);
    }
    hide Run, Utf8;
    OnlyName(name);
    BothTables(s.buckets[name], k);
    assert [name][..0] == [] && RowTotal(s.buckets, []) == 0;
  }

  lemma OnlyName(name: Text)
    ensures Sorted({name}) == [name]
  {
    hide Sorted, Utf8;
    assert Ascending([name]);
    SortedIs({name}, [name]);
  }

  lemma BothTables(b: Bucket, k: Text)
    requires forall key :: (RowOf(b, key).Some? <==> key == k) && (TombOf(b, key).Some? <==> key == k)
    ensures BucketRows(b) == 2
  {
    hide Utf8;
    assert b.keys.rows.Keys == {k} by {
      forall key ensures key in b.keys.rows <==> key == k { assert RowOf(b, key).Some? <==> key == k; }
    }
    assert b.gone.rows.Keys == {k} by {
      forall key ensures key in b.gone.rows <==> key == k { assert TombOf(b, key).Some? <==> key == k; }
    }
    assert |b.keys.rows| == |b.keys.rows.Keys| && |b.gone.rows| == |b.gone.rows.Keys|;
  }

  // ----- the donor's image, staged -----

  lemma DonorHolds(k: Text, e: Entry)
    ensures var p := DonorBucket(k, e); p.keys.rows == map[k := e.(lastModified := 3 * SECOND)] && p.gone.rows == map[]
  {
    hide Utf8;
  }

  ghost function DonorImage(name: Text, k: Text, e: Entry): seq<byte>
    requires AllWritable(map[name := DonorBucket(k, e)], [name])
  {
    ImageLayout(map[name := DonorBucket(k, e)], [name])
  }

  ghost function DonorCaps(name: Text, k: Text, e: Entry, caps: Caps): Caps {
    var size := Measured(map[name := DonorBucket(k, e)], [name]);
    caps.(bytes := size.bytes, decoded := size.charge)
  }

  lemma DonorEncodes(name: Text, k: Text, e: Entry, caps: Caps)
    requires Measurable(map[name := DonorBucket(k, e)], [name], caps)
    ensures AllWritable(map[name := DonorBucket(k, e)], [name])
  {
    hide Measured, KeyInsert, Utf8;
    DonorHolds(k, e);
    var b := DonorBucket(k, e);
    assert name in [name] && RowsMeasurable(b, caps) && RowMeasurable(k, b.keys.rows[k], caps);
  }

  /** What a follower stages from that donor's image: one bucket with that one row. */
  lemma DonorStages(name: Text, k: Text, e: Entry, caps: Caps)
    requires var d := map[name := DonorBucket(k, e)]; Measurable(d, [name], caps) && AllWritable(d, [name])
    ensures var r := Staged(DonorImage(name, k, e), [], DonorCaps(name, k, e, caps));
      && r.Ok? && AllPrivate(r.value.buckets) && r.value.buckets.Keys == {name}
      && var p := r.value.buckets[name];
         p.synced && p.fences == map[] && RowOf(p, k) == Some(Skeleton(e.(lastModified := 3 * SECOND)))
           && TombOf(p, k).None?
  {
    hide Measured, MeasuredUpTo, DecodeImage, ImageLayout, AllWritable, RowsMeasurable, KeyInsert, AllPrivate, RowTotal,
         Sorted, Utf8;
    var donor := map[name := DonorBucket(k, e)];
    var size := Measured(donor, [name]);
    ImageRoundTrip.ImageRoundTrips(donor, [name], caps, size.charge);
    var d := DecodeImage(DonorImage(name, k, e), DonorCaps(name, k, e, caps)).value;
    assert Staged(DonorImage(name, k, e), [], DonorCaps(name, k, e, caps)) == Ok(StageOf(d));
    StagedPrivate(DonorImage(name, k, e), [], DonorCaps(name, k, e, caps));
    DonorHolds(k, e);
    assert ImageRoundTrip.Mirrors(d.buckets[name], donor[name]);
    forall n ensures n in d.buckets <==> n == name { if n != name { assert n !in [name]; } }
  }

  // ----- the install that loses the row -----

  /** One run of three operations, the last an install of that image: every check passes and
      the live row is gone. */
  lemma CoveredRowLost(name: Text, k: Text, e: Entry, caps: Caps)
    requires e.lastModified == 10 * SECOND && e.etag.Some? && caps.rows >= 2
    requires Measurable(map[name := DonorBucket(k, e)], [name], caps)
    ensures AllWritable(map[name := DonorBucket(k, e)], [name])
    ensures var live := Run(EMPTY_INDEX, Mutations(name, k, e));
      var t := Step(live, InstallOp(DonorImage(name, k, e), [], DonorCaps(name, k, e, caps), true, [name]));
      && RowOf(BucketOf(live, name), k) == Some(e)
      && RowOf(BucketOf(t, name), k).None? && TombOf(BucketOf(t, name), k) == Some(5 * SECOND)
  {
    hide *;
    DonorEncodes(name, k, e, caps);
    DonorStages(name, k, e, caps);
    LiveHolds(name, k, e);
    var live := Run(EMPTY_INDEX, Mutations(name, k, e));
    var (image, exact) := (DonorImage(name, k, e), DonorCaps(name, k, e, caps));
    var peer := Staged(image, [], exact).value;
    CapsRows(name, k, e, caps);
    StageLosesRow(live, peer, name, k, e, caps.rows);
    InstallRuns.InstallStep(live, image, [], exact, true, [name]);
  }

  /** The live index after the two mutations. */
  ghost predicate LiveIs(live: Index, name: Text, k: Text, e: Entry) {
    && AllSound(live.buckets) && live.buckets.Keys == {name}
    && live.buckets[name].generation == 0 && live.buckets[name].rebuild.None?
    && RowTotal(live.buckets, Sorted(live.buckets.Keys)) == 2
    && var l := live.buckets[name]; forall key ::
         RowOf(l, key) == (if key == k then Some(e) else None)
           && TombOf(l, key) == (if key == k then Some(5 * SECOND) else None)
  }

  lemma LiveHolds(name: Text, k: Text, e: Entry)
    requires e.lastModified == 10 * SECOND
    ensures LiveIs(Run(EMPTY_INDEX, Mutations(name, k, e)), name, k, e)
    ensures RowOf(BucketOf(Run(EMPTY_INDEX, Mutations(name, k, e)), name), k) == Some(e)
  {
    hide Run, AllSound, RowTotal, Sorted, Utf8;
    var live := Run(EMPTY_INDEX, Mutations(name, k, e));
    TwoRows(name, k, e);
    forall key ensures var b := live.buckets[name];
      b.rebuild.None? && RowOf(b, key) == (if key == k then Some(e) else None)
        && TombOf(b, key) == (if key == k then Some(5 * SECOND) else None)
    {
      MutatedKey(name, k, e, key);
    }
    ReachableSound(Mutations(name, k, e));
    assert RowOf(live.buckets[name], k) == Some(e);
  }

  lemma CapsRows(name: Text, k: Text, e: Entry, caps: Caps)
    ensures DonorCaps(name, k, e, caps).rows == caps.rows
  {
    hide Measured;
  }

  lemma StageLosesRow(live: Index, peer: Stage, name: Text, k: Text, e: Entry, maxRows: nat)
    requires e.lastModified == 10 * SECOND && e.etag.Some? && maxRows >= 2
    requires LiveIs(live, name, k, e)
    requires AllPrivate(peer.buckets) && peer.buckets.Keys == {name}
    requires var p := peer.buckets[name];
      p.synced && p.fences == map[] && RowOf(p, k) == Some(Skeleton(e.(lastModified := 3 * SECOND)))
        && TombOf(p, k).None?
    ensures var t := InstallStage(live, peer, true, [name], maxRows);
      RowOf(BucketOf(t, name), k).None? && TombOf(BucketOf(t, name), k) == Some(5 * SECOND)
  {
    hide Sorted, RowTotal, Carried, Sound, AllPrivate, Orderable, InstalledRow, InstalledTomb, Utf8;
    var (l, p) := (live.buckets[name], peer.buckets[name]);
    assert RowOf(l, k) == Some(e);
    VerdictsPass(l, p, k, e);
    assert |peer.buckets| == |peer.buckets.Keys| == 1;
    assert Ascending([name]);
    assert Installable(live, peer, true, [name], maxRows);
    InstallIs(live, peer, [name], maxRows);
  }

  lemma VerdictsPass(l: Bucket, p: Bucket, k: Text, e: Entry)
    requires e.lastModified == 10 * SECOND && e.etag.Some? && k in l.keys.rows
    requires forall key :: RowOf(l, key) == (if key == k then Some(e) else None)
    requires forall key :: TombOf(l, key) == (if key == k then Some(5 * SECOND) else None)
    requires RowOf(p, k) == Some(Skeleton(e.(lastModified := 3 * SECOND))) && TombOf(p, k).None?
    ensures Orderable(l, p) && CarriesDelete(l, p, k) && !CarriesRow(l, p, k) && CoverDeleted(l, p, k)
    ensures InstalledRow(l, p, k).None? && InstalledTomb(l, p, k) == Some(5 * SECOND)
  {
    hide Utf8;
    forall key | key in l.keys.rows ensures key == k { assert RowOf(l, key).Some?; }
    forall key | key in l.gone.rows ensures key == k { assert TombOf(l, key).Some?; }
    assert RowOf(l, k) == Some(e) && TombOf(l, k) == Some(5 * SECOND);
  }
}
