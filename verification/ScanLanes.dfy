/** The scan as it runs (src/index/scan.rs): one lane for each range, each taking the
    origin's responses one at a time, interleaved with each other and with everything else
    that happens to the index. */
module ScanLanes {
  import opened Base
  import opened Ordered
  import opened Buckets
  import opened Index
  import opened Machine
  import opened Reachable
  import opened Scan
  import opened ScanRows
  import KeyIndex

  // ----- one response -----

  /** What a lane keeps of one response: its rows up to the range's end, whether it ran past
      that, and the last key seen. */
  datatype Take = Take(rows: seq<Listed>, past: bool, previous: Option<Text>)

  /** Nothing when the origin breaks its order. */
  function TakeFrom(contents: seq<Listed>, range: KeyRange, i: nat, previous: Option<Text>): Option<Take>
    requires i <= |contents|
    decreases |contents| - i
  {
    if i == |contents| then Some(Take(contents, false, previous)) else
    var key := contents[i].key;
    if !Above(key, previous) || !Above(key, range.lower) then None
    else if !Below(key, range.upper) then Some(Take(contents[..i], true, Some(key)))
    else TakeFrom(contents, range, i + 1, Some(key))
  }

  /** The rows taken are the longest head of the response inside the range's end. */
  ghost predicate TakesHead(t: Take, contents: seq<Listed>, range: KeyRange) {
    && t.rows <= contents && (t.past <==> |t.rows| < |contents|)
    && (forall j :: 0 <= j < |t.rows| ==> Below(t.rows[j].key, range.upper))
    && (t.past ==> !Below(contents[|t.rows|].key, range.upper))
  }

  lemma {:induction false} TakeIsHead(contents: seq<Listed>, range: KeyRange, i: nat, previous: Option<Text>)
    requires i <= |contents| && forall j :: 0 <= j < i ==> Below(contents[j].key, range.upper)
    ensures var t := TakeFrom(contents, range, i, previous); t.Some? ==> TakesHead(t.value, contents, range)
    decreases |contents| - i
  {
    hide Above, Below, Utf8;
    if i < |contents| && Below(contents[i].key, range.upper) {
      TakeIsHead(contents, range, i + 1, Some(contents[i].key));
    }
  }

  method TakeRows(contents: seq<Listed>, range: KeyRange, last: Option<Text>) returns (t: Option<Take>)
    ensures t == TakeFrom(contents, range, 0, last)
    ensures t.Some? ==> TakesHead(t.value, contents, range)
  {
    hide Above, Below, Utf8;
    TakeIsHead(contents, range, 0, last);
    var rows, previous := [], last;
    for i := 0 to |contents|
      invariant rows == contents[..i] && TakeFrom(contents, range, 0, last) == TakeFrom(contents, range, i, previous)
    {
      var key := contents[i].key;
      if !Above(key, previous) || !Above(key, range.lower) {
        return None;
      }
      previous := Some(key);
      if !Below(key, range.upper) {
        return Some(Take(rows, true, previous));
      }
      rows := rows + [contents[i]];
    }
    assert rows == contents;
    return Some(Take(rows, false, previous));
  }

  // ----- one lane -----

  datatype Status = Running | Done | Failed

  /** A range's scan between two requests. `heard` and `published` record what it has been
      told and the rows it has handed to the index for it. */
  datatype Lane = Lane(range: KeyRange, token: Option<nat>, previous: Option<Text>, emptyPages: nat, found: nat,
                       status: Status, heard: seq<Response>, published: seq<Listed>)

  function FreshLane(range: KeyRange): Lane { Lane(range, None, None, 0, 0, Running, [], []) }

  /** The page a response gives, unless the request failed, its keys are out of order or the
      scan has lost its permit. */
  function Answer(l: Lane, response: Option<Response>, permitted: bool): Option<Take> {
    if response.None? || !permitted then None else TakeFrom(response.value.contents, l.range, 0, l.previous)
  }

  /** One response, `accepted` saying whether the rebuild still owned the bucket. */
  function LaneStep(l: Lane, response: Option<Response>, permitted: bool, accepted: bool): Lane {
    if !l.status.Running? then l else
    match Answer(l, response, permitted)
    case None => l.(status := Failed)
    case Some(t) =>
      var r := response.value;
      var told := l.(previous := t.previous, heard := l.heard + [r], published := l.published + t.rows);
      if !accepted then told.(status := Failed) else
      var counted := told.(found := l.found + |t.rows|);
      if t.past || !r.truncated then counted.(status := Done) else
      var empty := if r.contents == [] then l.emptyPages + 1 else 0;
      if empty > 8 || r.next.None? || l.token == r.next then counted.(emptyPages := empty, status := Failed)
      else counted.(emptyPages := empty, token := r.next)
  }

  ghost predicate AllBelow(rows: seq<Listed>, upper: Option<Text>) {
    forall j :: 0 <= j < |rows| ==> Below(rows[j].key, upper)
  }

  /** Until its last response a lane has published everything it heard; after it, exactly
      its range of any snapshot those responses walk. */
  ghost predicate LaneKeeps(l: Lane, snapshot: seq<Listed>) {
    && (!l.status.Failed? ==> l.found == |l.published|)
    && (l.status.Running? ==> l.published == Flat(l.heard) && AllBelow(l.published, l.range.upper))
    && (l.status.Done? && Rising(snapshot) && Honest(snapshot, l.range.lower, l.heard) ==>
        l.published == RowsIn(snapshot, l.range))
  }

  lemma FlatNext(heard: seq<Response>, r: Response)
    ensures Flat(heard + [r]) == Flat(heard) + r.contents
  {
    assert (heard + [r])[..|heard|] == heard;
  }

  lemma LaneStepKeeps(l: Lane, response: Option<Response>, permitted: bool, accepted: bool, snapshot: seq<Listed>)
    requires LaneKeeps(l, snapshot)
    ensures LaneKeeps(LaneStep(l, response, permitted, accepted), snapshot)
  {
    hide Above, Below, RowsIn, Honest, Rising, Flat, TakeFrom, Utf8;
    var a := Answer(l, response, permitted);
    if l.status.Running? && a.Some? && accepted {
      var (t, r) := (a.value, response.value);
      TakeIsHead(r.contents, l.range, 0, l.previous);
      FlatNext(l.heard, r);
      if t.past || !r.truncated {
        LaneEnds(snapshot, l.range, l.heard, r, t);
      } else {
        assert t.rows == r.contents;
      }
    }
  }

  /** The last response closes the range: what came before it and its head are the rows. */
  lemma LaneEnds(snapshot: seq<Listed>, range: KeyRange, heard: seq<Response>, r: Response, t: Take)
    requires AllBelow(Flat(heard), range.upper) && TakesHead(t, r.contents, range) && (t.past || !r.truncated)
    ensures Rising(snapshot) && Honest(snapshot, range.lower, heard + [r]) ==>
        Flat(heard) + t.rows == RowsIn(snapshot, range)
  {
    hide Above, Below, RowsIn, Rising, Flat, Utf8;
    if Rising(snapshot) && Honest(snapshot, range.lower, heard + [r]) {
      var rest := RowsIn(snapshot, KeyRange(range.lower, None));
      var all := heard + [r];
      var i := |heard|;
      assert all[..i + 1] == all && all[i] == r;
      FlatNext(heard, r);
      var got := Flat(all);
      assert got == Flat(heard) + r.contents && got <= rest;
      var n := |Flat(heard)| + |t.rows|;
      assert got[..n] == Flat(heard) + t.rows && rest[..n] == got[..n];
      assert forall j :: 0 <= j < n ==> rest[j] == got[j] && got[j] == (Flat(heard) + t.rows)[j];
      if n < |rest| { assert t.past && rest[n] == got[n] == r.contents[|t.rows|]; }
      CutAtUpper(snapshot, range.lower, range.upper, n);
    }
  }

  /** The lane as the program keeps it between awaits. */
  class RangeScan {
    const range: KeyRange
    var token: Option<nat>
    var previous: Option<Text>
    var emptyPages: nat
    var found: nat
    var status: Status
    ghost var heard: seq<Response>
    ghost var published: seq<Listed>

    ghost function View(): Lane
      reads this
    {
      Lane(range, token, previous, emptyPages, found, status, heard, published)
    }

    constructor (range: KeyRange)
      ensures View() == FreshLane(range)
    {
      this.range, token, previous, emptyPages, found, status := range, None, None, 0, 0, Running;
      heard, published := [], [];
    }

    /** One turn of the paging loop: a response, or none when the request failed. */
    method Hear(index: KeyIndex.KeyIndex, bucket: Text, generation: u64, response: Option<Response>, permitted: bool)
      requires status.Running?
      modifies this, index
      ensures View() == LaneStep(old(View()), response, permitted,
                                 Rebuilding(BucketOf(old(index.View()), bucket), generation))
      ensures index.View() == match Answer(old(View()), response, permitted)
                              case None => old(index.View())
                              case Some(t) => ListPage(old(index.View()), bucket, generation, t.rows)
    {
      hide Above, Below, TakeFrom, ListPage, Utf8;
      if response.None? {
        status := Failed;
        return;
      }
      var r := response.value;
      var t := TakeRows(r.contents, range, previous);
      if t.None? || !permitted {
        status := Failed;
        return;
      }
      previous := t.value.previous;
      heard, published := heard + [r], published + t.value.rows;
      var updated := index.SyncListing(bucket, generation, t.value.rows);
      if updated.None? {
        status := Failed;
        return;
      }
      found := found + updated.value;
      if t.value.past || !r.truncated {
        status := Done;
        return;
      }
      emptyPages := if r.contents == [] then emptyPages + 1 else 0;
      if emptyPages > 8 || r.next.None? || token == r.next {
        status := Failed;
        return;
      }
      token := r.next;
    }
  }

  // ----- all lanes, and the rest of the world -----

  /** The scan of one bucket under one generation; `ops` is everything done to the index
      since, in order, and `finished` whether completion was published. */
  datatype System = System(index: Index, lanes: seq<Lane>, ops: seq<Op>, finished: bool)

  datatype Act =
    | Hear(lane: nat, response: Option<Response>, permitted: bool)
    | Meanwhile(op: Op)
    | Complete(permitted: bool)

  function Start(s: Index, boundaries: seq<Text>): System {
    System(s, seq(|boundaries| + 1, i requires 0 <= i <= |boundaries| => FreshLane(RangeAt(boundaries, i))), [], false)
  }

  function Did(x: System, op: Op): System { x.(index := Step(x.index, op), ops := x.ops + [op]) }

  predicate AllDone(lanes: seq<Lane>) { forall i :: 0 <= i < |lanes| ==> lanes[i].status.Done? }

  /** Each act is atomic under the index's lock. Completion waits for every lane. */
  function Turn(x: System, name: Text, generation: u64, act: Act): System {
    match act
    case Meanwhile(op) => Did(x, op)
    case Complete(permitted) =>
      if x.finished || !permitted || !AllDone(x.lanes) then x
      else Did(x, FinishOp(name, generation)).(finished := FinishAccepted(x.index, name, generation))
    case Hear(i, response, permitted) =>
      if i >= |x.lanes| || !x.lanes[i].status.Running? then x else
      var l := LaneStep(x.lanes[i], response, permitted, Rebuilding(BucketOf(x.index, name), generation));
      var moved := x.(lanes := x.lanes[i := l]);
      match Answer(x.lanes[i], response, permitted)
      case None => moved
      case Some(t) => Did(moved, ListOp(name, generation, t.rows))
  }

  function Play(s: Index, boundaries: seq<Text>, name: Text, generation: u64, acts: seq<Act>): System {
    if acts == [] then Start(s, boundaries)
    else Turn(Play(s, boundaries, name, generation, acts[..|acts| - 1]), name, generation, acts[|acts| - 1])
  }

  predicate Foreign(op: Op, name: Text, generation: u64) {
    !(op.ListOp? && op.bucket == name && op.generation == generation)
  }

  /** Only this scan publishes pages under the generation it was given. */
  predicate Alone(acts: seq<Act>, name: Text, generation: u64) {
    forall i :: 0 <= i < |acts| && acts[i].Meanwhile? ==> Foreign(acts[i].op, name, generation)
  }

  /** The pages of one rebuild among a run's operations. */
  function PagesOf(ops: seq<Op>, name: Text, generation: u64): seq<Listed> {
    if ops == [] then [] else
      var op := ops[|ops| - 1];
      PagesOf(ops[..|ops| - 1], name, generation) + if Foreign(op, name, generation) then [] else op.rows
  }

  function LaneRows(lanes: seq<Lane>): multiset<Listed> {
    if lanes == [] then multiset{} else LaneRows(lanes[..|lanes| - 1]) + multiset(lanes[|lanes| - 1].published)
  }

  // ----- what every interleaving keeps -----

  lemma Swapped(a: multiset<Listed>, b: multiset<Listed>, t: multiset<Listed>)
    ensures a + (b + t) == a + b + t && a + t + b == a + b + t
  {}

  lemma {:induction false} LaneRowsGrow(lanes: seq<Lane>, i: nat, l: Lane, rows: seq<Listed>)
    requires i < |lanes| && l.published == lanes[i].published + rows
    ensures LaneRows(lanes[i := l]) == LaneRows(lanes) + multiset(rows)
  {
    hide Utf8;
    var n := |lanes| - 1;
    var (a, b) := (LaneRows(lanes[..n]), multiset(lanes[n].published));
    if i == n {
      assert lanes[i := l][..n] == lanes[..n];
      assert multiset(lanes[i].published + rows) == multiset(lanes[i].published) + multiset(rows);
    } else {
      assert lanes[i := l][..n] == lanes[..n][i := l];
      LaneRowsGrow(lanes[..n], i, l, rows);
    }
    Swapped(a, b, multiset(rows));
  }

  lemma {:induction false} LaneRowsSame(lanes: seq<Lane>, i: nat, l: Lane)
    requires i < |lanes| && l.published == lanes[i].published
    ensures LaneRows(lanes[i := l]) == LaneRows(lanes)
  {
    assert l.published == lanes[i].published + [];
    LaneRowsGrow(lanes, i, l, []);
  }

  lemma {:induction false} NoLaneRows(lanes: seq<Lane>)
    requires forall i :: 0 <= i < |lanes| ==> lanes[i].published == []
    ensures LaneRows(lanes) == multiset{}
  {
    if lanes != [] { NoLaneRows(lanes[..|lanes| - 1]); }
  }

  lemma PagesNext(ops: seq<Op>, op: Op, name: Text, generation: u64)
    ensures multiset(PagesOf(ops + [op], name, generation)) ==
            multiset(PagesOf(ops, name, generation)) + if Foreign(op, name, generation) then multiset{}
                                                       else multiset(op.rows)
  {
    hide Utf8;
    assert (ops + [op])[..|ops|] == ops;
    var (a, b) := (PagesOf(ops, name, generation), if Foreign(op, name, generation) then [] else op.rows);
    assert multiset(a + b) == multiset(a) + multiset(b);
  }

  /** The index is the run of what was done, each lane keeps to its range, the pages under
      the generation are the lanes' own, and completion means that every lane is done. */
  ghost predicate Kept(x: System, s: Index, boundaries: seq<Text>, name: Text, generation: u64, snapshot: seq<Listed>) {
    && x.index == Run(s, x.ops) && |x.lanes| == |boundaries| + 1
    && (forall i :: 0 <= i < |x.lanes| ==>
        x.lanes[i].range == RangeAt(boundaries, i) && LaneKeeps(x.lanes[i], snapshot))
    && multiset(PagesOf(x.ops, name, generation)) == LaneRows(x.lanes)
    && (x.finished ==> AllDone(x.lanes))
  }

  lemma DidKeeps(x: System, op: Op, s: Index, boundaries: seq<Text>, name: Text, generation: u64, snapshot: seq<Listed>)
    requires Kept(x, s, boundaries, name, generation, snapshot) && Foreign(op, name, generation)
    ensures Kept(Did(x, op), s, boundaries, name, generation, snapshot)
  {
    hide Step, Run, PagesOf, LaneRows, LaneKeeps, RangeAt, Foreign, Utf8;
    RunNext(s, x.ops, op);
    PagesNext(x.ops, op, name, generation);
  }

  lemma HearKeeps(x: System, i: nat, response: Option<Response>, permitted: bool,
                  s: Index, boundaries: seq<Text>, name: Text, generation: u64, snapshot: seq<Listed>)
    requires Kept(x, s, boundaries, name, generation, snapshot)
    ensures Kept(Turn(x, name, generation, Hear(i, response, permitted)), s, boundaries, name, generation, snapshot)
  {
    hide Step, Run, PagesOf, LaneRows, LaneKeeps, RangeAt, TakeFrom, Rebuilding, BucketOf, Utf8;
    if i < |x.lanes| && x.lanes[i].status.Running? {
      var accepted := Rebuilding(BucketOf(x.index, name), generation);
      var (a, l) := (Answer(x.lanes[i], response, permitted), LaneStep(x.lanes[i], response, permitted, accepted));
      LaneStepKeeps(x.lanes[i], response, permitted, accepted, snapshot);
      if a.None? {
        LaneRowsSame(x.lanes, i, l);
      } else {
        LaneRowsGrow(x.lanes, i, l, a.value.rows);
        RunNext(s, x.ops, ListOp(name, generation, a.value.rows));
        PagesNext(x.ops, ListOp(name, generation, a.value.rows), name, generation);
      }
    }
  }

  lemma StartKeeps(s: Index, boundaries: seq<Text>, name: Text, generation: u64, snapshot: seq<Listed>)
    ensures Kept(Start(s, boundaries), s, boundaries, name, generation, snapshot)
  {
    hide RangeAt, Utf8;
    NoLaneRows(Start(s, boundaries).lanes);
  }

  lemma {:induction false} PlayKeeps(s: Index, boundaries: seq<Text>, name: Text, generation: u64, acts: seq<Act>,
                                     snapshot: seq<Listed>)
    requires Alone(acts, name, generation)
    ensures Kept(Play(s, boundaries, name, generation, acts), s, boundaries, name, generation, snapshot)
  {
    hide Kept, Step, Foreign, AllDone, FinishAccepted, RangeAt, LaneStep, Answer, Utf8;
    if acts == [] {
      StartKeeps(s, boundaries, name, generation, snapshot);
    } else {
      var n := |acts| - 1;
      PlayKeeps(s, boundaries, name, generation, acts[..n], snapshot);
      var x := Play(s, boundaries, name, generation, acts[..n]);
      match acts[n]
      case Meanwhile(op) => DidKeeps(x, op, s, boundaries, name, generation, snapshot);
      case Complete(permitted) => CompleteKeeps(x, permitted, s, boundaries, name, generation, snapshot);
      case Hear(i, response, permitted) =>
        HearKeeps(x, i, response, permitted, s, boundaries, name, generation, snapshot);
    }
  }

  lemma CompleteKeeps(x: System, permitted: bool, s: Index, boundaries: seq<Text>, name: Text, generation: u64,
                      snapshot: seq<Listed>)
    requires Kept(x, s, boundaries, name, generation, snapshot)
    ensures Kept(Turn(x, name, generation, Complete(permitted)), s, boundaries, name, generation, snapshot)
  {
    hide Step, Run, PagesOf, LaneRows, LaneKeeps, RangeAt, FinishAccepted, Utf8;
    DidKeeps(x, FinishOp(name, generation), s, boundaries, name, generation, snapshot);
  }

  // ----- all ranges together -----

  /** Every lane's responses walk the same snapshot of the origin. */
  ghost predicate HonestLanes(lanes: seq<Lane>, rows: seq<Listed>) {
    forall i :: 0 <= i < |lanes| ==> Honest(rows, lanes[i].range.lower, lanes[i].heard)
  }

  lemma {:induction false} LanesAreRanges(lanes: seq<Lane>, rows: seq<Listed>, boundaries: seq<Text>)
    requires |lanes| <= |boundaries| + 1
    requires forall i: nat :: i < |lanes| ==> lanes[i].published == RowsIn(rows, RangeAt(boundaries, i))
    ensures LaneRows(lanes) == multiset(Together(rows, boundaries, |lanes|))
  {
    hide Utf8, RowsIn, RangeAt;
    if lanes != [] {
      var n := |lanes| - 1;
      LanesAreRanges(lanes[..n], rows, boundaries);
      var (a, b) := (Together(rows, boundaries, n), lanes[n].published);
      assert multiset(a + b) == multiset(a) + multiset(b);
    }
  }

  /** However the lanes interleave, with each other and with anything else, once all have
      ended on an honest origin they have published each of its rows exactly once; and
      completion is never published sooner. */
  lemma ScanIsExhaustive(s: Index, boundaries: seq<Text>, name: Text, generation: u64, acts: seq<Act>,
                         rows: seq<Listed>)
    requires Alone(acts, name, generation) && Rising(rows) && Ascending(boundaries)
    requires var x := Play(s, boundaries, name, generation, acts);
      (AllDone(x.lanes) || x.finished) && HonestLanes(x.lanes, rows)
    ensures var x := Play(s, boundaries, name, generation, acts);
      AllDone(x.lanes) && x.index == Run(s, x.ops) && multiset(PagesOf(x.ops, name, generation)) == multiset(rows)
  {
    hide Play, Run, RowsIn, RangeAt, Together, Rising, Ascending, PagesOf, LaneRows, Honest, Utf8;
    PlayKeeps(s, boundaries, name, generation, acts, rows);
    var x := Play(s, boundaries, name, generation, acts);
    forall i: nat | i < |x.lanes|
      ensures x.lanes[i].published == RowsIn(rows, RangeAt(boundaries, i))
    {
      assert LaneKeeps(x.lanes[i], rows);
    }
    LanesAreRanges(x.lanes, rows, boundaries);
    RangesExhaust(rows, boundaries);
  }
}
