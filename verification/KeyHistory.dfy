/** One key's history: what each operation on the index does to the row, tombstone, fence
    and rebuild mark of a single key, whatever else the index holds. */
module KeyHistory {
  import opened Base
  import opened Entries
  import opened Rows
  import opened Buckets
  import opened Index
  import opened Install
  import opened Machine
  import opened Reachable
  import Delta

  datatype KeyView = KeyView(row: Option<Entry>, tomb: Option<Time>, touched: bool, fence: Option<nat>)

  function ViewOf(b: Bucket, k: Text): KeyView {
    KeyView(RowOf(b, k), TombOf(b, k), k in b.touched, if k in b.fences then Some(b.fences[k]) else None)
  }

  /** Everything that can happen to a key while its bucket keeps its generation. */
  datatype KeyEvent =
    | Overwritten(entry: Entry)
    | Observed(entry: Entry)
    | Deleted(at: Time)
    /** The sweep let go of its tombstone. */
    | Forgotten
    | Completing(fill: Fill)
    | Fenced(token: nat)
    /** The resolution holding the key's open token. */
    | Confirmed(truth: Authoritative)
    | OnPage(entry: Entry)

  predicate Dead(v: KeyView, ts: Time) { v.tomb.Some? && v.tomb.value >= ts }

  predicate Outrun(v: KeyView, ts: Time) { v.row.Some? && v.row.value.lastModified > ts }

  /** The row of a key a completion reaches. */
  function FilledRow(row: Option<Entry>, f: Fill): Option<Entry> {
    if row.Some? && SameVersion(row.value, f) then Some(Filled(row.value, f)) else row
  }

  /** `active`: a rebuild of the bucket is running. */
  function Happen(v: KeyView, active: bool, ev: KeyEvent): KeyView {
    var first := active && !v.touched;
    match ev
    case Overwritten(e) =>
      if first then KeyView(Some(e), None, true, None)
      else if Dead(v, e.lastModified) || Outrun(v, e.lastModified) then v
      else v.(row := Some(e), fence := None)
    case Observed(e) =>
      if Dead(v, e.lastModified) || Outrun(v, e.lastModified) || v.touched then v else v.(row := Some(e))
    case Deleted(at) =>
      if first then KeyView(None, Some(at), true, None)
      else if Outrun(v, at) || (v.tomb.Some? && v.tomb.value > at) then v.(tomb := Later(v.tomb, at))
      else v.(row := None, tomb := Later(v.tomb, at), fence := None)
    case Forgotten => v.(tomb := None)
    case Completing(f) => v.(row := FilledRow(v.row, f))
    case Fenced(token) => v.(fence := Some(token))
    case Confirmed(Present(e)) => KeyView(Some(e), None, v.touched || active, None)
    case Confirmed(Absent(now)) => KeyView(None, Later(v.tomb, now), v.touched || active, None)
    case OnPage(e) =>
      if v.touched || v.fence.Some? || Dead(v, e.lastModified) || Outrun(v, e.lastModified) then v
      else v.(row := Some(e))
  }

  function Unfold(v: KeyView, active: bool, evs: seq<KeyEvent>): KeyView {
    if evs == [] then v else Happen(Unfold(v, active, evs[..|evs| - 1]), active, evs[|evs| - 1])
  }

  lemma {:induction false} UnfoldConcat(v: KeyView, active: bool, a: seq<KeyEvent>, b: seq<KeyEvent>)
    ensures Unfold(v, active, a + b) == Unfold(Unfold(v, active, a), active, b)
  {
    hide Happen;
    if b == [] {
      assert a + b == a;
    } else {
      UnfoldConcat(v, active, a, b[..|b| - 1]);
      assert (a + b)[..|a + b| - 1] == a + b[..|b| - 1];
    }
  }

  // ----- cells -----

  lemma PutViews(c: Cell, key: Text, e: Entry, definitive: bool, k: Text)
    requires c.bucket.rebuild.None? ==> c.bucket.touched == {}
    ensures var r := PutCell(c, key, e, definitive).bucket;
      && r.rebuild == c.bucket.rebuild && r.generation == c.bucket.generation && r.epoch == c.bucket.epoch
      && ViewOf(r, k) ==
          if k == key
          then Happen(ViewOf(c.bucket, k), c.bucket.rebuild.Some?, if definitive then Overwritten(e) else Observed(e))
          else ViewOf(c.bucket, k)
  {
    hide Replace, AddTally, SubTally, EntryTally, GoneTally, Utf8;
  }

  lemma DelViews(c: Cell, key: Text, ts: Time, k: Text)
    requires c.bucket.rebuild.None? ==> c.bucket.touched == {}
    ensures var r := DelCell(c, key, ts, false).bucket;
      && r.rebuild == c.bucket.rebuild && r.generation == c.bucket.generation && r.epoch == c.bucket.epoch
      && ViewOf(r, k) ==
          if k == key then Happen(ViewOf(c.bucket, k), c.bucket.rebuild.Some?, Deleted(ts)) else ViewOf(c.bucket, k)
  {
    hide Replace, AddTally, SubTally, EntryTally, GoneTally, Utf8, Behind, Lower, RemoveRow;
    var b := c.bucket;
    assert Pruned(b, ts, false) == b;
    EntombedViews(b, key, ts, k);
    var dead := Entombed(b, key, ts);
    RemoveViews(Cell(Settle(dead, key), c.total), key, k);
  }

  lemma EntombedViews(b: Bucket, key: Text, ts: Time, k: Text)
    ensures TombOf(Entombed(b, key, ts), k) ==
        if k != key then TombOf(b, k) else if FirstMutation(b, key) then Some(ts) else Later(TombOf(b, k), ts)
  {
    hide AddTally, SubTally, GoneTally, Utf8, Behind, Lower;
  }

  lemma RemoveViews(c: Cell, key: Text, k: Text)
    ensures var r := RemoveRow(c, key).bucket;
      && RowOf(r, k) == (if k == key then None else RowOf(c.bucket, k))
      && r == c.bucket.(keys := r.keys, stats := r.stats)
  {
    hide Replace, SubTally, EntryTally, Utf8;
  }

  /** A sweep forgets tombstones and touches nothing else. */
  lemma PrunedViews(b: Bucket, ts: Time, sweep: bool, k: Text)
    ensures var r := Pruned(b, ts, sweep);
      && r.rebuild == b.rebuild && r.generation == b.generation && r.epoch == b.epoch && r.touched == b.touched
      && ViewOf(r, k) ==
          if k in b.gone.rows && k !in r.gone.rows then Happen(ViewOf(b, k), b.rebuild.Some?, Forgotten)
          else ViewOf(b, k)
  {
    hide Sweep, Utf8;
    var cutoff := ts - TOMBSTONE_TTL;
    if sweep && |b.gone.rows| > TOMBSTONE_PRUNE_LEN && cutoff >= -9_223_372_036_854_775_808_000_000_000 {
      SweepRows(b.gone, cutoff);
    }
  }

  lemma SweepRows(t: GoneRows, cutoff: Time)
    ensures forall k :: k in Sweep(t, cutoff).rows ==> k in t.rows && Sweep(t, cutoff).rows[k] == t.rows[k]
  {
    if SweepDue(t, cutoff) {
      SweepIs(t, cutoff);
      hide Sweep, Window, Moved, Utf8;
    }
  }

  lemma PrunedOnce(c: Cell, key: Text, ts: Time, sweep: bool)
    ensures DelCell(c, key, ts, sweep).bucket ==
        DelCell(Cell(Pruned(c.bucket, ts, sweep), c.total), key, ts, false).bucket
  {
    hide Sweep, RemoveRow, Entombed, Settle, DelAccepted;
  }

  lemma CompleteViews(c: Cell, key: Text, f: Fill, k: Text)
    ensures var r := CompleteCell(c, key, f).bucket;
      && r.rebuild == c.bucket.rebuild && r.generation == c.bucket.generation && r.epoch == c.bucket.epoch
      && ViewOf(r, k) ==
          if k == key then Happen(ViewOf(c.bucket, k), c.bucket.rebuild.Some?, Completing(f)) else ViewOf(c.bucket, k)
  {
    hide Replace, AddTally, SubTally, EntryTally, Utf8, SameVersion, Filled;
  }

  lemma FenceViews(b: Bucket, key: Text, k: Text)
    ensures var r := FenceBucket(b, key);
      && r.rebuild == b.rebuild && r.generation == b.generation
      && ViewOf(r, k) == if k == key then Happen(ViewOf(b, k), b.rebuild.Some?, Fenced(b.epoch + 1)) else ViewOf(b, k)
  {
    hide Utf8;
  }

  lemma ResolveViews(c: Cell, key: Text, token: nat, truth: Authoritative, k: Text)
    requires c.bucket.rebuild.None? ==> c.bucket.touched == {}
    ensures var r := ResolveCell(c, key, token, truth).bucket;
      && r.rebuild == c.bucket.rebuild && r.generation == c.bucket.generation && r.epoch == c.bucket.epoch
      && ViewOf(r, k) == if k == key && OwnsFence(c.bucket, key, token)
                         then Happen(ViewOf(c.bucket, k), c.bucket.rebuild.Some?, Confirmed(truth))
                         else ViewOf(c.bucket, k)
  {
    hide Replace, AddTally, SubTally, EntryTally, GoneTally, Utf8, Behind, Lower;
  }

  lemma RowViews(c: Cell, row: Listed, k: Text)
    ensures var r := ListRow(c, row).bucket;
      && r.rebuild == c.bucket.rebuild && r.generation == c.bucket.generation
      && r.epoch == c.bucket.epoch && r.touched == c.bucket.touched
      && ViewOf(r, k) ==
          if k == row.key then Happen(ViewOf(c.bucket, k), c.bucket.rebuild.Some?, OnPage(row.entry))
          else ViewOf(c.bucket, k)
  {
    hide Replace, AddTally, SubTally, EntryTally, Utf8;
  }

  /** A page's rows for one key, in page order. */
  function PageEvents(rows: seq<Listed>, key: Text): seq<KeyEvent> {
    if rows == [] then [] else
      var n := |rows| - 1;
      PageEvents(rows[..n], key) + if rows[n].key == key then [OnPage(rows[n].entry)] else []
  }

  lemma {:induction false} PageViews(c: Cell, rows: seq<Listed>, k: Text)
    ensures var r := ListRows(c, rows).bucket;
      && r.rebuild == c.bucket.rebuild && r.generation == c.bucket.generation
      && r.epoch == c.bucket.epoch && r.touched == c.bucket.touched
      && ViewOf(r, k) == Unfold(ViewOf(c.bucket, k), c.bucket.rebuild.Some?, PageEvents(rows, k))
  {
    hide ListRow, ViewOf, Happen, Utf8;
    if rows != [] {
      var n := |rows| - 1;
      PageViews(c, rows[..n], k);
      RowViews(ListRows(c, rows[..n]), rows[n], k);
      OneMore(ViewOf(c.bucket, k), c.bucket.rebuild.Some?, PageEvents(rows[..n], k), OnPage(rows[n].entry));
      assert PageEvents(rows[..n], k) + [] == PageEvents(rows[..n], k);
    }
  }

  lemma OneMore(v: KeyView, active: bool, evs: seq<KeyEvent>, ev: KeyEvent)
    ensures Unfold(v, active, evs + [ev]) == Happen(Unfold(v, active, evs), active, ev)
  {
    hide Happen;
    assert (evs + [ev])[..|evs|] == evs;
  }

  lemma UnfoldNone(v: KeyView, active: bool)
    ensures Unfold(v, active, []) == v
  {}

  lemma UnfoldOne(v: KeyView, active: bool, ev: KeyEvent)
    ensures Unfold(v, active, [ev]) == Happen(v, active, ev)
  {
    assert [ev] == [] + [ev];
    OneMore(v, active, [], ev);
  }

  // ----- steps -----

  /** The operation moves the bucket to another generation, ends its rebuild or drops it. */
  predicate Turns(s: Index, op: Op, name: Text) {
    match op
    case ResyncOp(b) => b == name
    case RemoveOp(b) => b == name
    case FinishOp(b, generation) => b == name && Rebuilding(BucketOf(s, name), generation)
    case DiscardOp(_) => true
    case InstallOp(_, _, _, _, _) => Step(s, op) != s
    case _ => false
  }

  function Swept(s: Index, op: Op): Bucket
    requires op.DelOp?
  {
    Pruned(BucketOf(s, op.bucket), op.at, op.sweep && s.capture.None?)
  }

  function EventsOf(s: Index, op: Op, name: Text, key: Text): seq<KeyEvent> {
    match op
    case PutOp(b, k, e, definitive, id, _) =>
      if b == name && k == key && !Suppressed(s, id) then [if definitive then Overwritten(e) else Observed(e)] else []
    case DelOp(b, k, at, _, id, _) =>
      if b != name || Suppressed(s, id) then [] else
      (if key in BucketOf(s, name).gone.rows && key !in Swept(s, op).gone.rows then [Forgotten] else [])
      + (if k == key then [Deleted(at)] else [])
    case CompleteOp(b, k, f, _) => if b == name && k == key then [Completing(f)] else []
    case FenceOp(b, k, id, own) =>
      if b == name && k == key && (own || !Suppressed(s, id)) then [Fenced(BucketOf(s, name).epoch + 1)] else []
    case ResolveOp(b, k, token, truth) =>
      if b == name && k == key && OwnsFence(BucketOf(s, name), key, token) then [Confirmed(truth)] else []
    case ListOp(b, generation, rows) =>
      if b == name && Rebuilding(BucketOf(s, name), generation) then PageEvents(rows, key) else []
    case _ => []
  }

  ghost predicate Marked(b: Bucket) { b.rebuild.None? ==> b.touched == {} }

  /** How the bucket moved under an operation that does not turn it. */
  ghost predicate Follows(b: Bucket, r: Bucket, key: Text, evs: seq<KeyEvent>) {
    && r.rebuild == b.rebuild && r.generation == b.generation
    && ViewOf(r, key) == Unfold(ViewOf(b, key), b.rebuild.Some?, evs)
  }

  lemma SameFollows(b: Bucket, key: Text)
    ensures Follows(b, b, key, [])
  {}

  lemma OneFollows(b: Bucket, r: Bucket, key: Text, ev: KeyEvent)
    requires r.rebuild == b.rebuild && r.generation == b.generation
    requires ViewOf(r, key) == Happen(ViewOf(b, key), b.rebuild.Some?, ev)
    ensures Follows(b, r, key, [ev])
  {
    hide ViewOf, Happen;
    assert [ev] == [] + [ev];
    OneMore(ViewOf(b, key), b.rebuild.Some?, [], ev);
  }

  lemma PutIs(s: Index, op: Op, name: Text)
    requires op.PutOp? && !Suppressed(s, op.id)
    ensures BucketOf(Step(s, op), name) ==
            if op.bucket == name then PutCell(Cell(BucketOf(s, name), s.stats), op.key, op.entry, op.definitive).bucket
            else BucketOf(s, name)
  {
    hide PutCell, PutAccepted, Duplicate, Journaled, JournaledNoop, NotedIf, Opened, Utf8;
    var s1 := Opened(NotedIf(s, op.id), op.bucket);
    SameBuckets(s, op.id, op.bucket, Delta.Noop, op.admitted);
    SameBuckets(NotedIf(s, op.id), op.id, op.bucket, Delta.Noop, op.admitted);
    var s2 := WithCell(s1, op.bucket, PutCell(CellOf(s1, op.bucket), op.key, op.entry, op.definitive));
    SameBuckets(s2, op.id, op.bucket, Delta.Put(op.bucket, op.key, op.entry), op.admitted);
  }

  lemma PutFollows(s: Index, op: Op, name: Text, key: Text)
    requires op.PutOp? && Marked(BucketOf(s, name))
    ensures Follows(BucketOf(s, name), BucketOf(Step(s, op), name), key, EventsOf(s, op, name, key))
  {
    hide Follows, PutCell, Duplicate, Happen, ViewOf, BucketOf, Utf8;
    var b := BucketOf(s, name);
    if Suppressed(s, op.id) {
      SameFollows(b, key);
    } else {
      PutIs(s, op, name);
      hide Step;
      if op.bucket == name {
        PutViews(Cell(b, s.stats), op.key, op.entry, op.definitive, key);
        if op.key == key {
          var ev := if op.definitive then Overwritten(op.entry) else Observed(op.entry);
          OneFollows(b, BucketOf(Step(s, op), name), key, ev);
        }
        else { QuietFollows(b, BucketOf(Step(s, op), name), key); }
      } else {
        SameFollows(b, key);
      }
    }
  }

  lemma QuietFollows(b: Bucket, r: Bucket, key: Text)
    requires r.rebuild == b.rebuild && r.generation == b.generation && ViewOf(r, key) == ViewOf(b, key)
    ensures Follows(b, r, key, [])
  {}

  lemma DelIs(s: Index, op: Op, name: Text)
    requires op.DelOp? && !Suppressed(s, op.id)
    ensures BucketOf(Step(s, op), name) ==
            if op.bucket == name
            then DelCell(Cell(BucketOf(s, name), s.stats), op.key, op.at, op.sweep && s.capture.None?).bucket
            else BucketOf(s, name)
  {
    hide DelCell, Duplicate, Pruned, Utf8, Journaled, JournaledNoop, NotedIf, Opened, RowOf, TombOf;
    var s1 := Opened(NotedIf(s, op.id), op.bucket);
    CaptureStays(s, op.id, op.bucket);
    SameBuckets(s, op.id, op.bucket, Delta.Noop, op.admitted);
    SameBuckets(NotedIf(s, op.id), op.id, op.bucket, Delta.Noop, op.admitted);
    var run := op.sweep && s1.capture.None?;
    var s2 := WithCell(s1, op.bucket, DelCell(CellOf(s1, op.bucket), op.key, op.at, run));
    SameBuckets(s2, op.id, op.bucket, Delta.Delete(op.bucket, op.key, BucketOf(s2, op.bucket).gone.rows[op.key]),
                op.admitted);
  }

  lemma CaptureStays(s: Index, id: Option<NativeCut>, bucket: Text)
    ensures Opened(NotedIf(s, id), bucket).capture.None? == s.capture.None?
  {
    hide WellFormed, Contiguous;
  }

  lemma DelFollows(s: Index, op: Op, name: Text, key: Text)
    requires op.DelOp? && Marked(BucketOf(s, name))
    ensures Follows(BucketOf(s, name), BucketOf(Step(s, op), name), key, EventsOf(s, op, name, key))
  {
    hide Follows, Step, DelCell, Duplicate, Utf8, Pruned, Happen, ViewOf;
    var b := BucketOf(s, name);
    if Suppressed(s, op.id) {
      SuppressedIdle(s, op);
      SameFollows(b, key);
    } else {
      DelIs(s, op, name);
      if op.bucket == name {
        var run := op.sweep && s.capture.None?;
        PrunedViews(b, op.at, run, key);
        PrunedOnce(Cell(b, s.stats), op.key, op.at, run);
        var p := Pruned(b, op.at, run);
        DelViews(Cell(p, s.stats), op.key, op.at, key);
        var forgot := if key in b.gone.rows && key !in p.gone.rows then [Forgotten] else [];
        if forgot == [] { QuietFollows(b, p, key); } else { OneFollows(b, p, key, Forgotten); }
        var r := BucketOf(Step(s, op), name);
        if op.key == key { OneFollows(p, r, key, Deleted(op.at)); } else { QuietFollows(p, r, key); }
        FollowsBoth(b, p, r, key, forgot, if op.key == key then [Deleted(op.at)] else []);
      } else {
        SameFollows(b, key);
      }
    }
  }

  lemma FollowsBoth(b: Bucket, p: Bucket, r: Bucket, key: Text, x: seq<KeyEvent>, y: seq<KeyEvent>)
    requires Follows(b, p, key, x) && Follows(p, r, key, y)
    ensures Follows(b, r, key, x + y)
  {
    hide ViewOf, Happen, Unfold;
    UnfoldConcat(ViewOf(b, key), b.rebuild.Some?, x, y);
  }

  lemma CompleteFollows(s: Index, op: Op, name: Text, key: Text)
    requires op.CompleteOp?
    ensures Follows(BucketOf(s, name), BucketOf(Step(s, op), name), key, EventsOf(s, op, name, key))
  {
    hide Follows, CompleteCell, Journaled, Utf8, Happen, ViewOf;
    var b := BucketOf(s, name);
    CompleteViews(Cell(b, s.stats), op.key, op.fill, key);
    CompleteIs(s, op, name);
    hide Step;
    var r := BucketOf(Step(s, op), name);
    if op.bucket == name && op.key == key {
      OneFollows(b, r, key, Completing(op.fill));
    } else {
      QuietFollows(b, r, key);
    }
  }

  lemma CompleteIs(s: Index, op: Op, name: Text)
    requires op.CompleteOp?
    ensures BucketOf(Step(s, op), name) ==
            if op.bucket == name then CompleteCell(Cell(BucketOf(s, name), s.stats), op.key, op.fill).bucket
            else BucketOf(s, name)
  {
    hide InsertRow, SameVersion, Filled, Recorded, Utf8;
    if op.bucket in s.buckets && CompletionOf(s.buckets[op.bucket], op.key, op.fill).Completed? {
      CompletedHolds(CellOf(s, op.bucket), op.key, op.fill);
    }
  }

  lemma FenceFollows(s: Index, op: Op, name: Text, key: Text)
    requires op.FenceOp?
    ensures Follows(BucketOf(s, name), BucketOf(Step(s, op), name), key, EventsOf(s, op, name, key))
  {
    hide Follows, FenceBucket, Duplicate, NotedIf, Utf8, Happen, ViewOf;
    var b := BucketOf(s, name);
    SameBuckets(s, op.id, name, Delta.Noop, true);
    SameBuckets(NotedIf(s, op.id), op.id, name, Delta.Noop, true);
    FenceViews(b, op.key, key);
    var r := BucketOf(Step(s, op), name);
    if op.bucket == name && (op.own || !Suppressed(s, op.id)) {
      assert r == FenceBucket(b, op.key);
      if op.key == key { OneFollows(b, r, key, Fenced(b.epoch + 1)); } else { QuietFollows(b, r, key); }
    } else {
      SameFollows(b, key);
    }
  }

  lemma ResolveFollows(s: Index, op: Op, name: Text, key: Text)
    requires op.ResolveOp? && Marked(BucketOf(s, name))
    ensures Follows(BucketOf(s, name), BucketOf(Step(s, op), name), key, EventsOf(s, op, name, key))
  {
    hide Follows, Utf8, Happen, ViewOf;
    var b := BucketOf(s, name);
    if op.bucket == name {
      ResolveViews(Cell(b, s.stats), op.key, op.token, op.truth, key);
      hide ResolveCell;
      var r := BucketOf(Step(s, op), name);
      if name in s.buckets { assert r == ResolveCell(Cell(b, s.stats), op.key, op.token, op.truth).bucket; }
      if op.key == key && OwnsFence(b, key, op.token) {
        OneFollows(b, r, key, Confirmed(op.truth));
      } else {
        QuietFollows(b, r, key);
      }
    } else {
      SameFollows(b, key);
    }
  }

  lemma ListFollows(s: Index, op: Op, name: Text, key: Text)
    requires op.ListOp?
    ensures Follows(BucketOf(s, name), BucketOf(Step(s, op), name), key, EventsOf(s, op, name, key))
  {
    hide ListRows, Utf8, Happen, ViewOf, PageEvents;
    var b := BucketOf(s, name);
    var s1 := Invalidated(s);
    SameBuckets(s, None, name, Delta.Noop, true);
    if op.bucket == name && Rebuilding(b, op.generation) {
      PageViews(Cell(b, s.stats), op.rows, key);
    } else {
      SameFollows(b, key);
    }
  }

  lemma OtherFollows(s: Index, op: Op, name: Text, key: Text)
    requires !Turns(s, op, name) && (op.ResyncOp? || op.RemoveOp? || op.FinishOp? || op.InstallOp?)
    ensures Follows(BucketOf(s, name), BucketOf(Step(s, op), name), key, EventsOf(s, op, name, key))
  {
    SameFollows(BucketOf(s, name), key);
    hide Follows, Discarded, Resynced, Finished, Replace, Utf8, InstallImage;
  }

  /** Until the bucket turns, every operation moves every key exactly as its events say. */
  lemma StepFollows(s: Index, op: Op, name: Text, key: Text)
    requires !Turns(s, op, name) && Marked(BucketOf(s, name))
    ensures Follows(BucketOf(s, name), BucketOf(Step(s, op), name), key, EventsOf(s, op, name, key))
  {
    match op {
      case PutOp(_, _, _, _, _, _) => PutFollows(s, op, name, key);
      case DelOp(_, _, _, _, _, _) => DelFollows(s, op, name, key);
      case CompleteOp(_, _, _, _) => CompleteFollows(s, op, name, key);
      case FenceOp(_, _, _, _) => FenceFollows(s, op, name, key);
      case ResolveOp(_, _, _, _) => ResolveFollows(s, op, name, key);
      case ListOp(_, _, _) => ListFollows(s, op, name, key);
      case RegisterOp(_) => IdleFollows(s, op, name, key);
      case SealOp(_, _) => IdleFollows(s, op, name, key);
      case RenewOp(_, _, _) => IdleFollows(s, op, name, key);
      case CaptureOp(_, _, _, _) => IdleFollows(s, op, name, key);
      case RetireOp => IdleFollows(s, op, name, key);
      case _ => OtherFollows(s, op, name, key);
    }
    hide Follows, Step, EventsOf, Turns;
  }

  lemma IdleFollows(s: Index, op: Op, name: Text, key: Text)
    requires op.RegisterOp? || op.SealOp? || op.RenewOp? || op.CaptureOp? || op.RetireOp?
    ensures Follows(BucketOf(s, name), BucketOf(Step(s, op), name), key, EventsOf(s, op, name, key))
  {
    FeedStepSound(s, op);
    hide Step, Follows;
    SameFollows(BucketOf(s, name), key);
  }
}
