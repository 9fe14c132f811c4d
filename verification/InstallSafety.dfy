/** What an install does to every key, and that it neither loses nor reorders a live effect
    outside one exactly described corner (src/index/fleet/install.rs). */
module InstallSafety {
  import opened Base
  import opened Ordered
  import opened Sums
  import opened Entries
  import opened Rows
  import opened Buckets
  import opened ImageCodec
  import opened ImageRoundTrip
  import opened Index
  import opened Install
  import opened Soundness

  // ----- the installed key -----

  function InstalledTomb(live: Bucket, peer: Bucket, k: Text): Option<Time> {
    if CarriesDelete(live, peer, k) then Later(TombOf(peer, k), live.gone.rows[k]) else TombOf(peer, k)
  }

  function InstalledRow(live: Bucket, peer: Bucket, k: Text): Option<Entry> {
    if CarriesRow(live, peer, k) then RowOf(live, k)
    else if CarriesDelete(live, peer, k) then None
    else RowOf(peer, k)
  }

  lemma CarryDeleteIs(c: Cell, live: Bucket, peer: Bucket, key: Text)
    ensures var r := CarryDelete(c, live, peer, key).bucket;
      && r == c.bucket.(keys := r.keys, gone := r.gone, stats := r.stats)
      && (forall k :: TombOf(r, k) ==
            if k == key && CarriesDelete(live, peer, k) then Later(TombOf(c.bucket, k), live.gone.rows[k])
            else TombOf(c.bucket, k))
      && (forall k :: RowOf(r, k) == if k == key && CarriesDelete(live, peer, k) then None else RowOf(c.bucket, k))
  {
    hide TombstoneVerdict, Replace, Utf8, AddTally, SubTally, EntryTally, GoneTally;
  }

  lemma {:induction false} CarryDeletesIs(c: Cell, live: Bucket, peer: Bucket, keys: seq<Text>)
    requires Distinct(keys)
    ensures var r := CarryDeletes(c, live, peer, keys).bucket;
      && r == c.bucket.(keys := r.keys, gone := r.gone, stats := r.stats)
      && (forall k :: TombOf(r, k) ==
            if k in keys && CarriesDelete(live, peer, k) then Later(TombOf(c.bucket, k), live.gone.rows[k])
            else TombOf(c.bucket, k))
      && (forall k :: RowOf(r, k) == if k in keys && CarriesDelete(live, peer, k) then None else RowOf(c.bucket, k))
  {
    hide CarryDelete, TombstoneVerdict, TombOf, RowOf, Later, Utf8;
    if keys != [] {
      var n := |keys| - 1;
      CarryDeletesIs(c, live, peer, keys[..n]);
      CarryDeleteIs(CarryDeletes(c, live, peer, keys[..n]), live, peer, keys[n]);
      assert keys == keys[..n] + [keys[n]];
      assert keys[n] !in keys[..n];
    }
  }

  lemma {:induction false} CarryRowsIs(c: Cell, live: Bucket, peer: Bucket, keys: seq<Text>)
    ensures var r := CarryRows(c, live, peer, keys).bucket;
      && r == c.bucket.(keys := r.keys, stats := r.stats)
      && (forall k :: RowOf(r, k) == if k in keys && CarriesRow(live, peer, k) then RowOf(live, k)
                                     else RowOf(c.bucket, k))
  {
    hide RowVerdict, Replace, Utf8, AddTally, SubTally, EntryTally;
    if keys != [] {
      var n := |keys| - 1;
      CarryRowsIs(c, live, peer, keys[..n]);
      assert keys == keys[..n] + [keys[n]];
    }
  }

  function Merged(c: Cell, live: Bucket, peer: Bucket): Cell {
    CarryRows(CarryDeletes(c, live, peer, GoneOrder(live)), live, peer, KeyOrder(live))
  }

  /** Carrying a bucket over leaves each key exactly its installed row and tombstone. */
  lemma MergedIs(c: Cell, live: Bucket, peer: Bucket)
    requires c.bucket.keys.rows == peer.keys.rows && c.bucket.gone.rows == peer.gone.rows
    ensures var r := Merged(c, live, peer).bucket;
      && r == c.bucket.(keys := r.keys, gone := r.gone, stats := r.stats)
      && (forall k :: TombOf(r, k) == InstalledTomb(live, peer, k))
      && (forall k :: RowOf(r, k) == InstalledRow(live, peer, k))
  {
    hide RowVerdict, TombstoneVerdict, Utf8, CarryDeletes, CarryRows, Later;
    OrdersHold(live);
    AscendingDistinct(GoneOrder(live));
    hide Ascending, Distinct;
    var d := CarryDeletes(c, live, peer, GoneOrder(live));
    CarryDeletesIs(c, live, peer, GoneOrder(live));
    CarryRowsIs(d, live, peer, KeyOrder(live));
    forall k ensures TombOf(d.bucket, k) == InstalledTomb(live, peer, k) {
      assert TombOf(c.bucket, k) == TombOf(peer, k);
    }
    forall k ensures RowOf(c.bucket, k) == RowOf(peer, k) {}
  }

  // ----- soundness -----

  lemma EntombSound(b: Bucket, key: Text, at: Time, total: Stats)
    requires Sound(b)
    ensures Sound(RemoveRow(Cell(b.(gone := GoneRaise(b.gone, key, at)), total), key).bucket)
  {
    hide Utf8, KeysTallied, GoneTallied, Replace;
    GoneInsertTallied(b.gone, key, at);
    FloorsAfterInsert(b.gone, key, at);
    KeyRemoveTallied(b.keys, key);
    hide FloorsHold;
  }

  lemma {:induction false} CarryDeletesSound(c: Cell, live: Bucket, peer: Bucket, keys: seq<Text>)
    requires Sound(c.bucket)
    ensures Sound(CarryDeletes(c, live, peer, keys).bucket)
  {
    hide Sound, TombstoneVerdict, RemoveRow, GoneRaise;
    if keys != [] {
      var n := |keys| - 1;
      CarryDeletesSound(c, live, peer, keys[..n]);
      var d := CarryDeletes(c, live, peer, keys[..n]);
      if CarriesDelete(live, peer, keys[n]) {
        EntombSound(d.bucket, keys[n], live.gone.rows[keys[n]], d.total);
      }
    }
  }

  lemma CarriedRowLater(live: Bucket, peer: Bucket, k: Text)
    requires Exclusive(live) && CarriesRow(live, peer, k)
    ensures var tomb := InstalledTomb(live, peer, k); tomb.Some? ==> tomb.value < live.keys.rows[k].lastModified
  {
    hide VersionDifference, TombstoneCarried;
  }

  lemma {:induction false} CarryRowsSound(c: Cell, live: Bucket, peer: Bucket, keys: seq<Text>)
    requires Sound(c.bucket)
    requires forall k :: CarriesRow(live, peer, k) && k in c.bucket.gone.rows ==>
        c.bucket.gone.rows[k] < live.keys.rows[k].lastModified
    ensures Sound(CarryRows(c, live, peer, keys).bucket)
  {
    hide Sound, RowVerdict, InsertRow;
    if keys != [] {
      var n := |keys| - 1;
      CarryRowsSound(c, live, peer, keys[..n]);
      CarryRowsIs(c, live, peer, keys[..n]);
      if CarriesRow(live, peer, keys[n]) {
        InsertRowSound(CarryRows(c, live, peer, keys[..n]), keys[n], live.keys.rows[keys[n]]);
      }
    }
  }

  lemma MergedSound(c: Cell, live: Bucket, peer: Bucket)
    requires Sound(c.bucket) && Exclusive(live)
    requires c.bucket.keys.rows == peer.keys.rows && c.bucket.gone.rows == peer.gone.rows
    ensures Sound(Merged(c, live, peer).bucket)
  {
    var d := CarryDeletes(c, live, peer, GoneOrder(live));
    CarryDeletesSound(c, live, peer, GoneOrder(live));
    MergedIs(c, live, peer);
    CarryRowsIs(d, live, peer, KeyOrder(live));
    forall k | CarriesRow(live, peer, k) && k in d.bucket.gone.rows
      ensures d.bucket.gone.rows[k] < live.keys.rows[k].lastModified
    {
      CarriedRowLater(live, peer, k);
      assert TombOf(Merged(c, live, peer).bucket, k) == TombOf(d.bucket, k);
    }
    hide Sound, RowVerdict, TombstoneVerdict, CarryDeletes, CarryRows;
    CarryRowsSound(d, live, peer, KeyOrder(live));
  }

  // ----- safety, key by key -----

  /** The live row is still there at its own version, or a row or delete of a strictly later
      second has taken its place. */
  predicate Survives(e: Entry, row: Option<Entry>, tomb: Option<Time>) {
    || (row.Some? && (SameRowVersion(e, row.value)
                      || WholeSeconds(row.value.lastModified) > WholeSeconds(e.lastModified)))
    || (tomb.Some? && WholeSeconds(tomb.value) > WholeSeconds(e.lastModified))
  }

  /** The corner the coverage check misses: the live row is covered by the same
      version under an earlier stamp, and the live tombstone below the row, carried because
      it is later than that stamp, takes the covering row with it. */
  predicate CoverDeleted(live: Bucket, peer: Bucket, k: Text)
    requires k in live.keys.rows
  {
    && k in live.gone.rows && k in peer.keys.rows
    && SameRowVersion(live.keys.rows[k], peer.keys.rows[k])
    && WholeSeconds(peer.keys.rows[k].lastModified) < WholeSeconds(live.gone.rows[k])
    && (k in peer.gone.rows ==> peer.gone.rows[k] < live.gone.rows[k])
  }

  /** After a checked install a live row survives exactly outside that corner. */
  lemma RowSurvives(live: Bucket, peer: Bucket, k: Text)
    requires Exclusive(live) && Orderable(live, peer) && k in live.keys.rows
    ensures Survives(live.keys.rows[k], InstalledRow(live, peer, k), InstalledTomb(live, peer, k)) <==>
        !CoverDeleted(live, peer, k)
  {
    assert RowVerdict(live, peer, k).Ok?;
    if k in live.gone.rows { assert TombstoneVerdict(live, peer, k).Ok?; }
  }

  /** No live tombstone is lost to an older row. */
  lemma TombstoneSurvives(live: Bucket, peer: Bucket, k: Text)
    requires Exclusive(live) && Orderable(live, peer) && k in live.gone.rows
    ensures var (row, tomb) := (InstalledRow(live, peer, k), InstalledTomb(live, peer, k));
      || (tomb.Some? && tomb.value >= live.gone.rows[k])
      || (row.Some? && row.value.lastModified > live.gone.rows[k])
  {
    assert TombstoneVerdict(live, peer, k).Ok?;
  }

  /** The candidate's own effects: its tombstones only rise, and its row gives way only to a
      live effect of a strictly later second. */
  lemma CandidateSurvives(live: Bucket, peer: Bucket, k: Text)
    requires Orderable(live, peer)
    ensures k in peer.gone.rows ==>
              InstalledTomb(live, peer, k).Some? && InstalledTomb(live, peer, k).value >= peer.gone.rows[k]
    ensures k in peer.keys.rows ==>
              Survives(peer.keys.rows[k], InstalledRow(live, peer, k), InstalledTomb(live, peer, k))
  {
    if k in live.keys.rows { assert RowVerdict(live, peer, k).Ok?; }
    if k in live.gone.rows { assert TombstoneVerdict(live, peer, k).Ok?; }
  }

  // ----- the whole index -----

  lemma {:induction false} DeletesIgnoreTotal(b: Bucket, s: Stats, t: Stats, live: Bucket, peer: Bucket,
                                              keys: seq<Text>)
    ensures CarryDeletes(Cell(b, s), live, peer, keys).bucket == CarryDeletes(Cell(b, t), live, peer, keys).bucket
  {
    hide TombstoneVerdict, Replace, GoneRaise, KeyRemove, Utf8;
    if keys != [] { DeletesIgnoreTotal(b, s, t, live, peer, keys[..|keys| - 1]); }
  }

  lemma {:induction false} RowsIgnoreTotal(b: Bucket, s: Stats, t: Stats, live: Bucket, peer: Bucket, keys: seq<Text>)
    ensures CarryRows(Cell(b, s), live, peer, keys).bucket == CarryRows(Cell(b, t), live, peer, keys).bucket
  {
    hide RowVerdict, Replace, KeyInsert, Utf8;
    if keys != [] { RowsIgnoreTotal(b, s, t, live, peer, keys[..|keys| - 1]); }
  }

  predicate Both(live: Index, peer: Stage, name: Text) { name in live.buckets && name in peer.buckets }

  function DeletesDone(b: Bucket, live: Index, peer: Stage, name: Text): Bucket {
    if Both(live, peer, name)
    then CarryDeletes(Cell(b, NO_STATS), live.buckets[name], peer.buckets[name], GoneOrder(live.buckets[name])).bucket
    else b
  }

  function RowsDone(b: Bucket, live: Index, peer: Stage, name: Text): Bucket {
    if Both(live, peer, name)
    then CarryRows(Cell(b, NO_STATS), live.buckets[name], peer.buckets[name], KeyOrder(live.buckets[name])).bucket
    else b
  }

  lemma {:induction false} PassDeletesIs(d: Decoded, live: Index, peer: Stage, names: seq<Text>)
    requires Distinct(names)
    ensures var r := PassDeletes(d, live, peer, names);
      && r.buckets.Keys == d.buckets.Keys
      && forall name :: name in d.buckets ==>
           r.buckets[name] == if name in names then DeletesDone(d.buckets[name], live, peer, name) else d.buckets[name]
  {
    hide CarryDeletes, Sorted, Utf8;
    if names != [] {
      var n := |names| - 1;
      var name := names[n];
      PassDeletesIs(d, live, peer, names[..n]);
      var done := PassDeletes(d, live, peer, names[..n]);
      assert names == names[..n] + [name] && name !in names[..n];
      if name in done.buckets && Both(live, peer, name) {
        DeletesIgnoreTotal(done.buckets[name], done.stats, NO_STATS, live.buckets[name],
                           peer.buckets[name], GoneOrder(live.buckets[name]));
      }
      hide Distinct;
    }
  }

  lemma {:induction false} PassRowsIs(d: Decoded, live: Index, peer: Stage, names: seq<Text>)
    requires Distinct(names)
    ensures var r := PassRows(d, live, peer, names);
      && r.buckets.Keys == d.buckets.Keys
      && forall name :: name in d.buckets ==>
           r.buckets[name] == if name in names then RowsDone(d.buckets[name], live, peer, name) else d.buckets[name]
  {
    hide CarryRows, Sorted, Utf8;
    if names != [] {
      var n := |names| - 1;
      var name := names[n];
      PassRowsIs(d, live, peer, names[..n]);
      var done := PassRows(d, live, peer, names[..n]);
      assert names == names[..n] + [name] && name !in names[..n];
      if name in done.buckets && Both(live, peer, name) {
        RowsIgnoreTotal(done.buckets[name], done.stats, NO_STATS, live.buckets[name],
                        peer.buckets[name], KeyOrder(live.buckets[name]));
      }
      hide Distinct;
    }
  }

  lemma {:induction false} UniverseIsAll(buckets: map<Text, Bucket>, universe: seq<Text>)
    requires Ascending(universe) && |buckets| == |universe| && forall name :: name in universe ==> name in buckets
    ensures forall name :: name in buckets ==> name in universe
  {
    var named := set name | name in universe;
    SortedIs(named, universe);
    SortedAscends(named);
    SameSize(named, buckets.Keys);
  }

  lemma {:induction false} SameSize<T>(a: set<T>, b: set<T>)
    requires a <= b && |a| == |b|
    ensures a == b
    decreases |a|
  {
    if a != {} {
      var x :| x in a;
      SameSize(a - {x}, b - {x});
      assert a == a - {x} + {x} && b == b - {x} + {x};
    } else {
      assert b == {};
    }
  }

  /** What a successful install leaves of one bucket. */
  ghost predicate InstalledFrom(r: Bucket, live: Index, peer: Bucket, name: Text) {
    && r.synced && r.rebuild == None
    && if name in live.buckets then
         var prior := live.buckets[name];
         && r.generation == prior.generation + 1 && r.epoch == prior.epoch && r.fences == prior.fences
         && (forall k :: RowOf(r, k) == InstalledRow(prior, peer, k))
         && (forall k :: TombOf(r, k) == InstalledTomb(prior, peer, k))
       else r.generation == 1 && r.epoch == 0 && r.fences == map[] && r.keys == peer.keys && r.gone == peer.gone
  }

  /** A successful install holds exactly the universe, every bucket complete, at the next
      generation, with its fences and epoch, each key at its installed row and tombstone. */
  lemma InstallIs(live: Index, peer: Stage, universe: seq<Text>, maxRows: nat)
    requires Installable(live, peer, true, universe, maxRows) && AllPrivate(peer.buckets) && AllSound(live.buckets)
    ensures var r := InstallStage(live, peer, true, universe, maxRows);
      && (forall name :: name in r.buckets <==> name in universe)
      && (forall name :: name in r.buckets ==>
          Sound(r.buckets[name]) && InstalledFrom(r.buckets[name], live, peer.buckets[name], name))
      && r.cuts == live.cuts && r.capture == None
  {
    AscendingDistinct(universe);
    UniverseIsAll(peer.buckets, universe);
    var d0 := AdoptAll(live, peer);
    var d1 := PassDeletes(d0, live, peer, universe);
    PassDeletesIs(d0, live, peer, universe);
    PassRowsIs(d1, live, peer, universe);
    var r := InstallStage(live, peer, true, universe, maxRows);
    forall name | name in r.buckets
      ensures Sound(r.buckets[name]) && InstalledFrom(r.buckets[name], live, peer.buckets[name], name)
    {
      InstalledBucketIs(live, peer, name, r.buckets[name]);
    }
    hide Sound, InstalledFrom, Orderable, Sorted, Ascending, CarryRows, CarryDeletes;
  }

  lemma InstalledBucketIs(live: Index, peer: Stage, name: Text, r: Bucket)
    requires name in peer.buckets && Private(peer.buckets[name])
    requires name in live.buckets ==> Sound(live.buckets[name]) && live.buckets[name].generation + 1 < U64_LIMIT
    requires r == RowsDone(DeletesDone(Adopted(live, name, peer.buckets[name]), live, peer, name), live, peer, name)
    ensures Sound(r) && InstalledFrom(r, live, peer.buckets[name], name)
  {
    var b := Adopted(live, name, peer.buckets[name]);
    SameTables(peer.buckets[name], b);
    assert Sound(b) by { hide Utf8, Tabled; }
    if name in live.buckets {
      var (l, p) := (live.buckets[name], peer.buckets[name]);
      var c := Cell(b, NO_STATS);
      MergedIs(c, l, p);
      MergedSound(c, l, p);
      var d := CarryDeletes(c, l, p, GoneOrder(l));
      RowsIgnoreTotal(d.bucket, d.total, NO_STATS, l, p, KeyOrder(l));
      assert r == Merged(c, l, p).bucket by { assert Cell(d.bucket, d.total) == d; hide Sound; }
      hide CarryRows, CarryDeletes, Merged, Sound, InstalledRow, InstalledTomb;
    }
  }
}
