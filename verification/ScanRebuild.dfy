/** What a rebuild holds once its scan has published every row of the origin. */
module ScanRebuild {
  import opened Base
  import opened Ordered
  import opened Entries
  import opened Rows
  import opened Buckets
  import opened Index
  import opened Machine
  import opened Soundness
  import Reachable
  import opened KeyHistory
  import opened Fences
  import opened Overlay
  import opened Scan
  import opened ScanRows
  import opened ScanLanes

  function OnPages(evs: seq<KeyEvent>): seq<KeyEvent> {
    if evs == [] then [] else OnPages(evs[..|evs| - 1]) + if evs[|evs| - 1].OnPage? then [evs[|evs| - 1]] else []
  }

  lemma {:induction false} OnPagesConcat(a: seq<KeyEvent>, b: seq<KeyEvent>)
    ensures OnPages(a + b) == OnPages(a) + OnPages(b)
  {
    if b == [] {
      assert a + b == a;
    } else {
      OnPagesConcat(a, b[..|b| - 1]);
      assert (a + b)[..|a + b| - 1] == a + b[..|b| - 1];
    }
  }

  lemma {:induction false} PageEventsConcat(a: seq<Listed>, b: seq<Listed>, key: Text)
    ensures PageEvents(a + b, key) == PageEvents(a, key) + PageEvents(b, key)
  {
    hide Utf8;
    if b == [] {
      assert a + b == a;
    } else {
      PageEventsConcat(a, b[..|b| - 1], key);
      assert (a + b)[..|a + b| - 1] == a + b[..|b| - 1];
    }
  }

  lemma {:induction false} PagesAreOnPage(rows: seq<Listed>, key: Text)
    ensures OnPages(PageEvents(rows, key)) == PageEvents(rows, key)
  {
    hide Utf8;
    if rows != [] {
      var n := |rows| - 1;
      PagesAreOnPage(rows[..n], key);
      var last := if rows[n].key == key then [OnPage(rows[n].entry)] else [];
      OnPagesConcat(PageEvents(rows[..n], key), last);
      assert OnPages([]) == [];
      if last != [] { assert last[..0] == [] && OnPages(last) == [] + last; }
    }
  }

  lemma StepPages(s: Index, op: Op, name: Text, key: Text, generation: u64)
    requires Rebuilding(BucketOf(s, name), generation)
    ensures OnPages(EventsOf(s, op, name, key)) ==
            PageEvents(if Foreign(op, name, generation) then [] else op.rows, key)
  {
    hide Utf8, PageEvents, Duplicate, Pruned;
    assert OnPages([]) == [] && PageEvents([], key) == [] by { NoEvents(key); }
    match op {
      case ListOp(_, _, rows) => PagesAreOnPage(rows, key);
      case DelOp(_, _, at, _, _, _) =>
        var evs := EventsOf(s, op, name, key);
        NotPages(evs);
      case _ =>
        var evs := EventsOf(s, op, name, key);
        NotPages(evs);
    }
  }

  lemma NoEvents(key: Text)
    ensures PageEvents([], key) == []
  {}

  lemma {:induction false} NotPages(evs: seq<KeyEvent>)
    requires forall i :: 0 <= i < |evs| ==> !evs[i].OnPage?
    ensures OnPages(evs) == []
  {
    if evs != [] { NotPages(evs[..|evs| - 1]); }
  }

  /** A key's LIST events through a rebuild are its rows in that rebuild's pages. */
  lemma {:induction false} HistoryPages(s: Index, ops: seq<Op>, name: Text, key: Text, generation: u64)
    requires Unturned(s, ops, name, generation)
    ensures OnPages(History(s, ops, name, key)) == PageEvents(PagesOf(ops, name, generation), key)
  {
    hide Step, Turns, EventsOf, Utf8, PageEvents;
    assert ops[..|ops|] == ops;
    if ops == [] {
      NoEvents(key);
    } else {
      var n := |ops| - 1;
      var now := Run(s, ops[..n]);
      assert Unturned(s, ops[..n], name, generation) by {
        forall i: nat | i <= n
          ensures Rebuilding(BucketOf(Run(s, ops[..n][..i]), name), generation)
          ensures i < n ==> !Turns(Run(s, ops[..n][..i]), ops[..n][i], name)
        {
          assert ops[..n][..i] == ops[..i];
        }
      }
      HistoryPages(s, ops[..n], name, key, generation);
      StepPages(now, ops[n], name, key, generation);
      OnPagesConcat(History(s, ops[..n], name, key), EventsOf(now, ops[n], name, key));
      PageEventsConcat(PagesOf(ops[..n], name, generation),
                       if Foreign(ops[n], name, generation) then [] else ops[n].rows, key);
    }
  }

  lemma {:induction false} PageCount(rows: seq<Listed>, key: Text, row: Listed)
    requires row.key == key && forall x :: x in rows && x.key == key ==> x == row
    ensures |PageEvents(rows, key)| == multiset(rows)[row]
    ensures forall ev :: ev in PageEvents(rows, key) ==> ev == OnPage(row.entry)
  {
    hide Utf8;
    if rows != [] {
      var n := |rows| - 1;
      assert rows == rows[..n] + [rows[n]] && rows[n] in rows;
      PageCount(rows[..n], key, row);
    }
  }

  lemma {:induction false} OnceEach(rows: seq<Listed>, i: nat)
    requires Rising(rows) && i < |rows|
    ensures multiset(rows)[rows[i]] == 1 && forall x :: x in rows && x.key == rows[i].key ==> x == rows[i]
  {
    hide Utf8;
    var n := |rows| - 1;
    assert rows == rows[..n] + [rows[n]];
    forall x | x in rows && x.key == rows[i].key ensures x == rows[i] {
      var j :| 0 <= j < |rows| && rows[j] == x;
      LessIrreflexive(x.key);
    }
    if i < n {
      OnceEach(rows[..n], i);
      LessIrreflexive(rows[i].key);
    } else if rows[n] in rows[..n] {
      var j :| 0 <= j < n && rows[..n][j] == rows[n];
      LessIrreflexive(rows[n].key);
    }
  }

  function RowIn(rows: seq<Listed>, key: Text): Option<Entry> {
    if rows == [] then None
    else if rows[|rows| - 1].key == key then Some(rows[|rows| - 1].entry)
    else RowIn(rows[..|rows| - 1], key)
  }

  lemma {:induction false} RowInIs(rows: seq<Listed>, key: Text)
    ensures RowIn(rows, key).Some? ==> exists i :: 0 <= i < |rows| && rows[i] == Listed(key, RowIn(rows, key).value)
    ensures RowIn(rows, key).None? ==> forall x :: x in rows ==> x.key != key
  {
    hide Utf8;
    if rows != [] {
      var n := |rows| - 1;
      assert rows == rows[..n] + [rows[n]];
      RowInIs(rows[..n], key);
      if rows[n].key == key { assert rows[n] == Listed(key, rows[n].entry); }
      else if RowIn(rows[..n], key).Some? {
        var i :| 0 <= i < n && rows[..n][i] == Listed(key, RowIn(rows[..n], key).value);
        assert rows[i] == Listed(key, RowIn(rows, key).value);
      }
    }
  }

  /** The key appears in the pages exactly as often as in the snapshot: once or never. */
  lemma PagesOnce(published: seq<Listed>, rows: seq<Listed>, key: Text)
    requires Rising(rows) && multiset(published) == multiset(rows)
    ensures PageEvents(published, key) == if RowIn(rows, key).Some? then [OnPage(RowIn(rows, key).value)] else []
  {
    hide Utf8, Less, PageEvents, Rising;
    RowInIs(rows, key);
    forall x ensures x in published <==> x in rows { assert x in multiset(published) <==> x in multiset(rows); }
    if RowIn(rows, key).Some? {
      var i :| 0 <= i < |rows| && rows[i] == Listed(key, RowIn(rows, key).value);
      OnceEach(rows, i);
      PageCount(published, key, rows[i]);
      var evs := PageEvents(published, key);
      assert |evs| == 1 && evs[0] in evs;
    } else {
      var any := Listed(key, BlankEntry(0));
      PageCount(published, key, any);
    }
  }

  /** Nothing but this rebuild's pages, and the sweep, has touched the key. */
  ghost predicate OnlyPages(evs: seq<KeyEvent>) { forall i :: 0 <= i < |evs| ==> evs[i].OnPage? || evs[i].Forgotten? }

  /** A key whose only events are its pages' holds the last word of those pages. */
  lemma {:induction false} OnlyPagesMerge(evs: seq<KeyEvent>)
    requires OnlyPages(evs)
    ensures Merge(evs) == Merge(OnPages(evs))
  {
    hide FilledRow, Utf8;
    if evs != [] {
      var n := |evs| - 1;
      OnlyPagesMerge(evs[..n]);
      var done := OnPages(evs[..n]);
      if evs[n].OnPage? { assert (done + [evs[n]])[..|done|] == done; } else { assert done + [] == done; }
    }
  }

  lemma OnlyPagesUnruled(evs: seq<KeyEvent>)
    requires OnlyPages(evs)
    ensures !Ruled(evs) && !EverFenced(evs)
  {}

  /** A rebuild that publishes an exhaustive scan and finishes holds, of every key nothing
      else touched meanwhile, exactly the origin's row, and no row where it has none. */
  lemma FinishedScan(s: Index, name: Text, ops: seq<Op>, key: Text, rows: seq<Listed>)
    requires AllSound(s.buckets) && Keeps(ops, name) && |ops| < U64_LIMIT && Rising(rows)
    requires FinishAccepted(Run(Resync(s, name), ops), name, GenerationOf(Resync(s, name), name))
    requires multiset(PagesOf(ops, name, GenerationOf(Resync(s, name), name))) == multiset(rows)
    requires FenceOf(s, name, key).None? && OnlyPages(History(Resync(s, name), ops, name, key))
    ensures var r := BucketOf(Finish(Run(Resync(s, name), ops), name, GenerationOf(Resync(s, name), name)), name);
      r.synced && RowOf(r, key) == RowIn(rows, key) && TombOf(r, key).None?
  {
    hide Run, AllSound, Unturned, Authority, Ruled, EverFenced, Admitted, LastToken, ViewOf, Rebuilding, Keeps, History,
         Resync, PageEvents, PagesOf, Rising, Finish, Utf8;
    var s0 := Resync(s, name);
    var g := GenerationOf(s0, name);
    Reachable.RebuildStepsSound(s, name, 0);
    NeverTurned(s0, ops, name);
    HistoryPages(s0, ops, name, key, g);
    PagesOnce(PagesOf(ops, name, g), rows, key);
    var evs := History(s0, ops, name, key);
    OnlyPagesMerge(evs);
    OnlyPagesUnruled(evs);
    FinishedRebuild(s, name, ops, key);
    var page := OnPages(evs);
    assert Merge([]) == None;
    if page != [] { assert page[..0] == []; }
  }

  function Rebuild(s: Index, name: Text, boundaries: seq<Text>, acts: seq<Act>): System {
    var s0 := Resync(s, name);
    Play(s0, boundaries, name, GenerationOf(s0, name), acts)
  }

  /** The whole rebuild, from resync to completion. Its ranges are scanned side by side
      while other operations come and go. If the origin answered every lane from one
      snapshot and completion is accepted, each key nothing else touched holds exactly its
      row in that snapshot, or none. */
  lemma ScannedRebuild(s: Index, name: Text, boundaries: seq<Text>, acts: seq<Act>, key: Text, rows: seq<Listed>)
    requires AllSound(s.buckets) && Rising(rows) && Ascending(boundaries) && FenceOf(s, name, key).None?
    requires Alone(acts, name, GenerationOf(Resync(s, name), name))
    requires var x := Rebuild(s, name, boundaries, acts);
      && Keeps(x.ops, name) && |x.ops| < U64_LIMIT && HonestLanes(x.lanes, rows)
      && OnlyPages(History(Resync(s, name), x.ops, name, key))
      && !x.finished && Turn(x, name, GenerationOf(Resync(s, name), name), Complete(true)).finished
    ensures var r := BucketOf(Turn(Rebuild(s, name, boundaries, acts), name,
                                   GenerationOf(Resync(s, name), name), Complete(true)).index, name);
      r.synced && RowOf(r, key) == RowIn(rows, key) && TombOf(r, key).None?
  {
    hide Run, Play, AllSound, OnlyPages, History, Resync, PagesOf, Rising, Ascending, HonestLanes, Finish,
         FinishAccepted, Utf8;
    var g := GenerationOf(Resync(s, name), name);
    var x := Rebuild(s, name, boundaries, acts);
    ScanIsExhaustive(Resync(s, name), boundaries, name, g, acts, rows);
    FinishedScan(s, name, x.ops, key, rows);
  }
}
