/** Exact accounting through decoding, staging and installing, and so over whole runs. */
module ConservedRuns {
  import opened Base
  import opened Ordered
  import opened Sums
  import opened Entries
  import opened Rows
  import opened Wire
  import opened Buckets
  import opened Image
  import opened ImageCodec
  import opened Index
  import opened Install
  import opened InstallSafety
  import opened Machine
  import opened Reachable
  import opened Conservation
  import Delta

  // ----- decoding -----

  lemma {:induction false} ReadKeysAscend(s: seq<byte>, n: nat, left: nat, cap: nat, previous: Option<Text>)
    requires ReadKeys(s, n, left, cap, previous).Ok?
    ensures var rows := ReadKeys(s, n, left, cap, previous).value.value.rows;
      && Rising(rows)
      && forall i :: 0 <= i < |rows| ==> Follows(previous, rows[i].key)
    decreases n
  {
    hide Utf8, ReadEntry, Less;
    if n > 0 {
      var row := ReadEntry(s, left, cap).value;
      ReadKeysAscend(row.rest, n - 1, row.value.left, cap, Some(row.value.key));
      var more := ReadKeys(row.rest, n - 1, row.value.left, cap, Some(row.value.key)).value.value.rows;
      forall i | 0 <= i < |more| ensures Follows(previous, more[i].key) {
        if previous.Some? { LessTransitive(previous.value, row.value.key, more[i].key); }
      }
    }
  }

  lemma {:induction false} KeyTableKeys(rows: seq<Listed>)
    ensures forall k :: k in KeyTableOf(rows).rows ==> exists i :: 0 <= i < |rows| && rows[i].key == k
  {
    hide AddTally, SubTally, EntryTally, Utf8;
    if rows != [] {
      var n := |rows| - 1;
      KeyTableKeys(rows[..n]);
      forall k | k in KeyTableOf(rows).rows ensures exists i :: 0 <= i < |rows| && rows[i].key == k {
        if k == rows[n].key { assert rows[n].key == k; } else {
          assert k in KeyTableOf(rows[..n]).rows;
          var i :| 0 <= i < |rows[..n]| && rows[..n][i].key == k;
          assert rows[i].key == k;
        }
      }
    }
  }

  function Carrying(rows: seq<Listed>): Bucket { EMPTY_BUCKET.(keys := KeyTableOf(rows)) }

  /** A decoder's running statistics are exact once its rows' totals fit. */
  lemma {:induction false} DecodedStatsExact(rows: seq<Listed>)
    requires Rising(rows)
    ensures Word(Held(Carrying(rows))) ==> Shown(StatsOfRows(rows)) == Held(Carrying(rows))
    decreases |rows|
  {
    if rows == [] {
      HoldsNothing();
      SameHeld(Carrying(rows), EMPTY_BUCKET);
    } else {
      var n := |rows| - 1;
      DecodedStatsExact(rows[..n]);
      var b := Carrying(rows[..n]);
      KeyTableKeys(rows[..n]);
      LessIrreflexive(rows[n].key);
      assert rows[n].key !in b.keys.rows;
      InsertHeld(b, rows[n].key, rows[n].entry);
      SameHeld(Carrying(rows), b.(keys := KeyInsert(b.keys, rows[n].key, rows[n].entry)));
      HeldNatural(b);
      hide Held, KeyInsert, KeyTableOf, Rising, Less, Utf8;
      if Word(Held(Carrying(rows))) {
        assert Word(Held(b));
        assert Held(Carrying(rows)) == Together(Held(b), Shown(StatsOf(rows[n].entry)));
        ReplaceExact(StatsOfRows(rows[..n]), Held(b), NO_STATS, StatsOf(rows[n].entry));
      }
    }
  }

  lemma ReadBucketExact(s: seq<byte>, left: nat, rows: nat, caps: Caps, previous: Option<Text>)
    requires ReadBucket(s, left, rows, caps, previous).Ok?
    ensures var r := ReadBucket(s, left, rows, caps, previous).value.value;
      && Follows(previous, r.name)
      && (Word(Held(r.bucket)) ==> Shown(r.bucket.stats) == Held(r.bucket))
  {
    hide Utf8, ReadText, ReadLe, ReadKeys, ReadGones, Less, NameSize, KeyTableOf, GoneTableOf, StatsOfRows, Held, Word,
         Rising;
    var name := ReadText(s, caps.names).value;
    var left1 := left - NameSize(name.value).charge;
    var keyCount := ReadLe(name.rest, 4).value;
    ReadKeysAscend(keyCount.rest, keyCount.value, left1, caps.names, None);
    var keys := ReadKeys(keyCount.rest, keyCount.value, left1, caps.names, None).value.value.rows;
    DecodedStatsExact(keys);
    SameHeld(ReadBucket(s, left, rows, caps, previous).value.value.bucket, Carrying(keys));
  }

  predicate Behind0(done: map<Text, Bucket>, previous: Option<Text>) {
    forall name :: name in done ==> previous.Some? && AtMost(name, previous.value)
  }

  predicate AtMostAmount(a: Amount, b: Amount) { a.objects <= b.objects && a.bytes <= b.bytes }

  lemma AddedBucket(done: map<Text, Bucket>, stats: Stats, name: Text, b: Bucket)
    requires name !in done
    ensures HeldAll(done[name := b]) == Together(HeldAll(done), Held(b))
    ensures AtMostAmount(HeldAll(done), HeldAll(done[name := b]))
    ensures Exact(done, stats) && Shown(b.stats) == Held(b) && Word(HeldAll(done[name := b])) ==>
              Exact(done[name := b], Replace(stats, NO_STATS, b.stats))
  {
    hide Held, Replace;
    TotalsWith(done, name, b);
    HoldsNothing();
    HeldNatural(b);
    hide HeldAll;
    if Exact(done, stats) && Shown(b.stats) == Held(b) && Word(HeldAll(done[name := b])) {
      ReplaceExact(stats, HeldAll(done), NO_STATS, b.stats);
    }
  }

  lemma BehindNext(done: map<Text, Bucket>, previous: Option<Text>, name: Text, b: Bucket)
    requires Behind0(done, previous) && Follows(previous, name)
    ensures name !in done && Behind0(done[name := b], Some(name))
  {
    if name in done {
      if name != previous.value { LessAsymmetric(name, previous.value); } else { LessIrreflexive(name); }
    }
    forall n | n in done ensures AtMost(n, name) {
      if n != previous.value { LessTransitive(n, previous.value, name); }
    }
  }

  /** Whatever bytes decode, the index they give is accounted exactly when its totals fit. */
  lemma {:induction false} ReadBucketsExact(s: seq<byte>, n: nat, left: nat, rows: nat, caps: Caps,
                                            previous: Option<Text>, done: Decoded)
    requires ReadBuckets(s, n, left, rows, caps, previous, done).Ok? && Behind0(done.buckets, previous)
    ensures var d := ReadBuckets(s, n, left, rows, caps, previous, done).value.value;
      && AtMostAmount(HeldAll(done.buckets), HeldAll(d.buckets))
      && (Word(HeldAll(d.buckets)) && Exact(done.buckets, done.stats) ==> Exact(d.buckets, d.stats))
    decreases n
  {
    hide Utf8, ReadBucket, Replace, Behind0, Held, HeldAll, Exact;
    if n > 0 {
      var b := ReadBucket(s, left, rows, caps, previous).value;
      ReadBucketExact(s, left, rows, caps, previous);
      BehindNext(done.buckets, previous, b.value.name, b.value.bucket);
      var mid := Decoded(done.buckets[b.value.name := b.value.bucket],
                         Replace(done.stats, NO_STATS, b.value.bucket.stats));
      AddedBucket(done.buckets, done.stats, b.value.name, b.value.bucket);
      HeldAllNatural(done.buckets);
      ReadBucketsExact(b.rest, n - 1, b.value.left, b.value.rows, caps, Some(b.value.name), mid);
    }
  }

  lemma DecodeExact(bytes: seq<byte>, caps: Caps)
    requires DecodeImage(bytes, caps).Ok?
    ensures var d := DecodeImage(bytes, caps).value; Exact(d.buckets, d.stats) <==> Word(HeldAll(d.buckets))
  {
    hide Utf8, ReadLe, ReadBuckets, HeaderSize;
    var count := ReadLe(bytes[1..], 4).value;
    NothingExact();
    hide Held, HeldAll;
    ReadBucketsExact(count.rest, count.value, caps.decoded - HeaderSize(count.value).charge, 0, caps, None, NOTHING);
  }

  lemma NothingExact()
    ensures Exact(map[], NO_STATS)
  {
    assert Sum(NOTHING.buckets, HeldObjects) == 0 && Sum(NOTHING.buckets, HeldBytes) == 0;
  }

  // ----- staging -----

  lemma StageStepExact(g: Stage, d: Delta.Delta, caps: Caps)
    requires Exact(g.buckets, g.stats) && StageStep(g, d, caps).Ok?
    ensures var r := StageStep(g, d, caps).value; Exact(r.buckets, r.stats) <==> Word(HeldAll(r.buckets))
  {
    var s := Index(g.buckets, g.stats, None, map[]);
    ExactWord(s);
    if !d.Noop? {
      hide PutCell, DelCell, BucketRows, CellExact, HeldAll, Exact;
      SlotExact(g.buckets, g.stats, d.bucket);
      var c := Cell(g.buckets[d.bucket], g.stats);
      var rest := Rest(g.buckets, d.bucket);
      if d.Put? {
        PutExact(c, rest, d.key, d.entry, true);
        ReplacedExact(s, d.bucket, PutCell(c, d.key, d.entry, true));
      } else {
        DelExact(c, rest, d.key, d.at, false);
        PutBackIndex(s, d.bucket, DelCell(c, d.key, d.at, false));
        ExactWord(WithCell(s, d.bucket, DelCell(c, d.key, d.at, false)));
      }
    }
  }

  ghost predicate StagedFits(g: Stage, effects: seq<Delta.Delta>, caps: Caps) {
    && (StageAll(g, effects, caps).Ok? ==> Word(HeldAll(StageAll(g, effects, caps).value.buckets)))
    && (effects != [] ==> StagedFits(g, effects[..|effects| - 1], caps))
  }

  lemma {:induction false} StageAllExact(g: Stage, effects: seq<Delta.Delta>, caps: Caps)
    requires Exact(g.buckets, g.stats) && StageAll(g, effects, caps).Ok? && StagedFits(g, effects, caps)
    ensures Exact(StageAll(g, effects, caps).value.buckets, StageAll(g, effects, caps).value.stats)
  {
    hide Exact, HeldAll, StageStep;
    if effects != [] {
      var n := |effects| - 1;
      StageAllExact(g, effects[..n], caps);
      StageStepExact(StageAll(g, effects[..n], caps).value, effects[n], caps);
    }
  }

  // ----- installing -----

  lemma {:induction false} SumMapped<K, V>(m: map<K, V>, n: map<K, V>, weight: (K, V) -> int)
    requires m.Keys == n.Keys && forall k :: k in m ==> weight(k, m[k]) == weight(k, n[k])
    ensures Sum(m, weight) == Sum(n, weight)
    decreases |m|
  {
    if m != map[] {
      var k := Pick(m);
      SumRemove(n, weight, k);
      SumMapped(m - {k}, n - {k}, weight);
    }
  }

  lemma AdoptedExact(live: Index, peer: Stage)
    requires forall name :: name in live.buckets ==> live.buckets[name].generation + 1 < U64_LIMIT
    requires Exact(peer.buckets, peer.stats)
    ensures Exact(AdoptAll(live, peer).buckets, peer.stats)
  {
    hide Held, Utf8;
    var m := AdoptAll(live, peer).buckets;
    forall name | name in m ensures Held(m[name]) == Held(peer.buckets[name]) {
      assert m[name].keys == peer.buckets[name].keys;
      SameHeld(m[name], peer.buckets[name]);
    }
    SumMapped(peer.buckets, m, HeldObjects);
    SumMapped(peer.buckets, m, HeldBytes);
  }

  lemma {:induction false} CarryDeletesExact(c: Cell, rest: Amount, live: Bucket, peer: Bucket, keys: seq<Text>)
    requires CellExact(c, rest) && Natural(rest)
    ensures CellExact(CarryDeletes(c, live, peer, keys), rest)
  {
    hide CellExact, TombstoneVerdict, RemoveRow, GoneRaise;
    if keys != [] {
      var n := |keys| - 1;
      CarryDeletesExact(c, rest, live, peer, keys[..n]);
      var d := CarryDeletes(c, live, peer, keys[..n]);
      if CarriesDelete(live, peer, keys[n]) {
        var e := Cell(d.bucket.(gone := GoneRaise(d.bucket.gone, keys[n], live.gone.rows[keys[n]])), d.total);
        SameExact(d, e, rest);
        RemoveRowExact(e, rest, keys[n]);
      }
    }
  }

  ghost predicate CarryFits(c: Cell, rest: Amount, live: Bucket, peer: Bucket, keys: seq<Text>) {
    && Fits(CarryRows(c, live, peer, keys).bucket, rest)
    && (keys != [] ==> CarryFits(c, rest, live, peer, keys[..|keys| - 1]))
  }

  lemma {:induction false} CarryRowsExact(c: Cell, rest: Amount, live: Bucket, peer: Bucket, keys: seq<Text>)
    requires CellExact(c, rest) && Natural(rest) && CarryFits(c, rest, live, peer, keys)
    ensures CellExact(CarryRows(c, live, peer, keys), rest)
  {
    hide CellExact, RowVerdict, InsertRow, Held;
    if keys != [] {
      var n := |keys| - 1;
      CarryRowsExact(c, rest, live, peer, keys[..n]);
      if CarriesRow(live, peer, keys[n]) {
        InsertRowExact(CarryRows(c, live, peer, keys[..n]), rest, keys[n], live.keys.rows[keys[n]]);
      }
    }
  }

  lemma {:induction false} PassDeletesExact(d: Decoded, live: Index, peer: Stage, names: seq<Text>)
    requires Exact(d.buckets, d.stats)
    ensures var r := PassDeletes(d, live, peer, names); Exact(r.buckets, r.stats)
  {
    hide Exact, CellExact, CarryDeletes, Sorted;
    if names != [] {
      var n := |names| - 1;
      var name := names[n];
      PassDeletesExact(d, live, peer, names[..n]);
      var done := PassDeletes(d, live, peer, names[..n]);
      if name in done.buckets && Both(live, peer, name) {
        SlotExact(done.buckets, done.stats, name);
        var c := Cell(done.buckets[name], done.stats);
        CarryDeletesExact(c, Rest(done.buckets, name), live.buckets[name], peer.buckets[name],
                          GoneOrder(live.buckets[name]));
        PutBack(done.buckets, done.stats, name,
                CarryDeletes(c, live.buckets[name], peer.buckets[name], GoneOrder(live.buckets[name])));
      }
    }
  }

  ghost predicate PassFits(d: Decoded, live: Index, peer: Stage, names: seq<Text>) {
    names == [] ||
      var name := names[|names| - 1];
      var done := PassRows(d, live, peer, names[..|names| - 1]);
      && PassFits(d, live, peer, names[..|names| - 1])
      && (name in done.buckets && Both(live, peer, name) ==>
            CarryFits(Cell(done.buckets[name], done.stats), Rest(done.buckets, name),
                      live.buckets[name], peer.buckets[name], KeyOrder(live.buckets[name])))
  }

  lemma {:induction false} PassRowsExact(d: Decoded, live: Index, peer: Stage, names: seq<Text>)
    requires Exact(d.buckets, d.stats) && PassFits(d, live, peer, names)
    ensures var r := PassRows(d, live, peer, names); Exact(r.buckets, r.stats)
  {
    hide Exact, CellExact, CarryRows, Sorted, CarryFits;
    if names != [] {
      var n := |names| - 1;
      var name := names[n];
      PassRowsExact(d, live, peer, names[..n]);
      var done := PassRows(d, live, peer, names[..n]);
      if name in done.buckets && Both(live, peer, name) {
        SlotExact(done.buckets, done.stats, name);
        var c := Cell(done.buckets[name], done.stats);
        CarryRowsExact(c, Rest(done.buckets, name), live.buckets[name], peer.buckets[name],
                       KeyOrder(live.buckets[name]));
        PutBack(done.buckets, done.stats, name,
                CarryRows(c, live.buckets[name], peer.buckets[name], KeyOrder(live.buckets[name])));
      }
    }
  }

  /** Every total an install passes through: the decoded image's, each replayed effect's,
      and each carried row's. */
  ghost predicate InstallFits(s: Index, op: Op)
    requires op.InstallOp?
  {
    var r := Staged(op.image, op.effects, op.caps);
    r.Ok? && Installable(s, r.value, op.aligned, op.universe, op.caps.rows) ==>
      var d := DecodeImage(op.image, op.caps).value;
      && Word(HeldAll(d.buckets))
      && StagedFits(StageOf(d), op.effects, op.caps)
      && PassFits(PassDeletes(AdoptAll(s, r.value), s, r.value, op.universe), s, r.value, op.universe)
  }

  lemma InstallStepExact(s: Index, op: Op)
    requires op.InstallOp? && IndexExact(s) && InstallFits(s, op)
    ensures IndexExact(Step(s, op))
  {
    hide Exact, HeldAll, StagedFits, PassFits, StageAll, PassRows, PassDeletes, DecodeImage;
    var r := Staged(op.image, op.effects, op.caps);
    if r.Ok? && Installable(s, r.value, op.aligned, op.universe, op.caps.rows) {
      DecodeExact(op.image, op.caps);
      StageAllExact(StageOf(DecodeImage(op.image, op.caps).value), op.effects, op.caps);
      var d := AdoptAll(s, r.value);
      AdoptedExact(s, r.value);
      PassDeletesExact(d, s, r.value, op.universe);
      PassRowsExact(PassDeletes(d, s, r.value, op.universe), s, r.value, op.universe);
      hide Installable, Staged;
    }
  }

  // ----- runs -----

  /** Every total the operation passes through fits 64 bits. */
  ghost predicate StepFits(s: Index, op: Op) {
    match op
    case ListOp(b, generation, rows) =>
      Rebuilding(BucketOf(s, b), generation) ==> PageFits(CellOf(s, b), rows, Rest(s.buckets, b))
    case InstallOp(_, _, _, _, _) => InstallFits(s, op)
    case _ => Word(HeldAll(Step(s, op).buckets))
  }

  lemma StepExact(s: Index, op: Op)
    requires IndexExact(s) && StepFits(s, op)
    ensures IndexExact(Step(s, op))
  {
    hide IndexExact, HeldAll, PageFits, InstallFits, Put, Del, Complete, Fence, Resolve, ListPage, Resync, RemoveBucket,
         Finish, DiscardForGap, InstallImage, Register, Seal, Renew, BeginCapture;
    match op {
      case PutOp(b, k, e, definitive, id, admitted) => PutStepExact(s, b, k, e, definitive, id, admitted);
      case DelOp(b, k, at, sweep, id, admitted) => DelStepExact(s, b, k, at, sweep, id, admitted);
      case CompleteOp(b, k, fill, admitted) => CompleteStepExact(s, b, k, fill, admitted);
      case FenceOp(b, k, id, own) => FenceStepExact(s, b, k, id, own);
      case ResolveOp(b, k, token, truth) => ResolveStepExact(s, b, k, token, truth);
      case ListOp(b, generation, rows) => ListStepExact(s, b, generation, rows);
      case ResyncOp(b) => ResyncStepExact(s, b);
      case RemoveOp(b) => RemoveStepExact(s, b);
      case FinishOp(b, generation) => FinishStepExact(s, b, generation);
      case DiscardOp(missed) => DiscardStepExact(s, missed);
      case InstallOp(_, _, _, _, _) => InstallStepExact(s, op);
      case _ => FeedStepExact(s, op);
    }
  }

  lemma FeedStepExact(s: Index, op: Op)
    requires op.RegisterOp? || op.SealOp? || op.RenewOp? || op.CaptureOp? || op.RetireOp?
    requires IndexExact(s)
    ensures IndexExact(Step(s, op))
  {
    hide Step, Exact;
    FeedStepSound(s, op);
  }

  ghost predicate RunFits(ops: seq<Op>) {
    ops == [] || (RunFits(ops[..|ops| - 1]) && StepFits(Run(EMPTY_INDEX, ops[..|ops| - 1]), ops[|ops| - 1]))
  }

  /** In every run whose totals fit, each bucket's statistics are its row count and known
      bytes, and the index's are their sums. */
  lemma {:induction false} RunExact(ops: seq<Op>)
    requires RunFits(ops)
    ensures IndexExact(Run(EMPTY_INDEX, ops))
  {
    hide IndexExact, Step, StepFits;
    if ops == [] {
      EmptyExact();
    } else {
      RunExact(ops[..|ops| - 1]);
      StepExact(Run(EMPTY_INDEX, ops[..|ops| - 1]), ops[|ops| - 1]);
    }
  }

  lemma EmptyExact()
    ensures IndexExact(EMPTY_INDEX)
  {
    NothingExact();
  }
}
