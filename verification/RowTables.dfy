/** The two row tables as the program updates them in place (src/index/rows.rs), each
    method proved against the table functions of `Rows`. */
module RowTables {
  import opened Base
  import opened Entries
  import opened Rows

  class KeyTable {
    var rows: map<Text, Entry>
    var image: Tally

    ghost function View(): KeyRows
      reads this
    {
      KeyRows(rows, image)
    }

    constructor ()
      ensures View() == NO_KEYS && KeysTallied(View())
    {
      rows, image := map[], NO_TALLY;
    }

    method Insert(k: Text, e: Entry) returns (previous: Option<Entry>)
      modifies this
      ensures View() == KeyInsert(old(View()), k, e)
      ensures previous == if k in old(rows) then Some(old(rows)[k]) else None
      ensures old(KeysTallied(View())) ==> KeysTallied(View())
    {
      if KeysTallied(View()) { KeyInsertTallied(View(), k, e); }
      image := AddTally(image, EntryTally(|k|, e));
      previous := if k in rows then Some(rows[k]) else None;
      rows := rows[k := e];
      if previous.Some? {
        image := SubTally(image, EntryTally(|k|, previous.value));
      }
    }

    method Remove(k: Text) returns (previous: Option<Entry>)
      modifies this
      ensures View() == KeyRemove(old(View()), k)
      ensures previous == if k in old(rows) then Some(old(rows)[k]) else None
      ensures old(KeysTallied(View())) ==> KeysTallied(View())
    {
      if KeysTallied(View()) { KeyRemoveTallied(View(), k); }
      if k !in rows { return None; }
      previous := Some(rows[k]);
      rows := rows - {k};
      image := SubTally(image, EntryTally(|k|, previous.value));
    }

    /** The row's old share of the tally goes out before its new one comes in. */
    method Update(k: Text, change: Entry -> Entry) returns (found: bool)
      modifies this
      ensures found == (k in old(rows))
      ensures View() == if found then KeyUpdate(old(View()), k, change(old(rows)[k])) else old(View())
      ensures old(KeysTallied(View())) ==> KeysTallied(View())
    {
      if k !in rows { return false; }
      if KeysTallied(View()) { KeyInsertTallied(View(), k, change(rows[k])); }
      var before := EntryTally(|k|, rows[k]);
      rows := rows[k := change(rows[k])];
      image := SubTally(image, before);
      image := AddTally(image, EntryTally(|k|, rows[k]));
      found := true;
    }
  }

  class GoneTable {
    var rows: map<Text, Time>
    var image: Tally
    var cursor: Option<Text>
    var floor: Option<Time>
    var lapFloor: Option<Time>

    ghost function View(): GoneRows
      reads this
    {
      GoneRows(rows, image, cursor, floor, lapFloor)
    }

    /** The floors bound what they claim to, and the tally is the rows' own. */
    ghost predicate Valid()
      reads this
    {
      FloorsHold(View()) && GoneTallied(View())
    }

    constructor ()
      ensures View() == NO_GONE && Valid()
    {
      rows, image, cursor, floor, lapFloor := map[], NO_TALLY, None, None, None;
    }

    method Insert(k: Text, at: Time) returns (previous: Option<Time>)
      requires Valid()
      modifies this
      ensures Valid() && View() == GoneInsert(old(View()), k, at)
      ensures previous == if k in old(rows) then Some(old(rows)[k]) else None
    {
      FloorsAfterInsert(View(), k, at);
      GoneInsertTallied(View(), k, at);
      var behind := Behind(cursor, k);
      previous := if k in rows then Some(rows[k]) else None;
      rows := rows[k := at];
      if previous.None? {
        image := AddTally(image, GoneTally(|k|));
      }
      floor := Lower(floor, at);
      if behind {
        lapFloor := Lower(lapFloor, at);
      }
    }

    method Raise(k: Text, at: Time)
      requires Valid()
      modifies this
      ensures Valid() && View() == GoneRaise(old(View()), k, at)
      ensures k in rows && at <= rows[k]
    {
      if k !in rows || rows[k] < at {
        var _ := Insert(k, at);
      }
    }

    method Remove(k: Text) returns (previous: Option<Time>)
      requires Valid()
      modifies this
      ensures Valid() && View() == GoneRemove(old(View()), k)
      ensures previous == if k in old(rows) then Some(old(rows)[k]) else None
    {
      FloorsAfterInsert(View(), k, 0);
      GoneRemoveTallied(View(), k);
      if k !in rows { return None; }
      previous := Some(rows[k]);
      rows := rows - {k};
      image := SubTally(image, GoneTally(|k|));
    }

    /** Visit the window: collect what has expired, lower the lap's floor by what has not. */
    method Visit(window: seq<Text>, cutoff: Time) returns (expired: seq<Text>)
      requires forall k :: k in window ==> k in rows
      modifies this`lapFloor
      ensures lapFloor == KeptFloor(rows, window, cutoff, old(lapFloor))
      ensures expired == Expired(rows, window, cutoff) && |expired| <= |window|
    {
      expired := [];
      for i := 0 to |window|
        invariant expired == Expired(rows, window[..i], cutoff) && |expired| <= i
        invariant lapFloor == KeptFloor(rows, window[..i], cutoff, old(lapFloor))
      {
        assert window[..i + 1][..i] == window[..i];
        if rows[window[i]] < cutoff {
          expired := expired + [window[i]];
        } else {
          lapFloor := Lower(lapFloor, rows[window[i]]);
        }
      }
      assert window[..|window|] == window;
    }

    method Forget(keys: seq<Text>)
      modifies this`rows, this`image
      ensures View() == RemoveAll(old(View()), keys)
    {
      for i := 0 to |keys|
        invariant View() == RemoveAll(old(View()), keys[..i])
      {
        assert keys[..i + 1][..i] == keys[..i];
        if keys[i] in rows {
          image := SubTally(image, GoneTally(|keys[i]|));
          rows := rows - {keys[i]};
        }
      }
      assert keys[..|keys|] == keys;
    }

    /** One bounded step of the sweep: equal to the function, with both floors still sound. */
    method SweepExpired(cutoff: Time) returns (forgotten: nat)
      requires Valid()
      modifies this
      ensures Valid() && View() == Sweep(old(View()), cutoff)
      ensures forgotten <= SWEEP_STEP
      ensures forall k :: k in old(rows) && k !in rows ==> old(rows)[k] < cutoff
      ensures forall k :: k in rows ==> k in old(rows) && rows[k] == old(rows)[k]
    {
      hide FloorsHold, GoneTallied, KeptFloor, Expired, RemoveAll, Behind, Ahead, Utf8;
      ghost var before := View();
      FloorsAfterSweep(before, cutoff);
      SweepTallied(before, cutoff);
      if floor.None? || floor.value >= cutoff {
        return 0;
      }
      SweepIs(before, cutoff);
      var window := Window(GoneRows(rows, image, cursor, floor, lapFloor));
      var expired := Visit(window, cutoff);
      if |window| < SWEEP_STEP {
        // A short window ends the lap, and its floor bounds all that is left.
        floor, lapFloor, cursor := lapFloor, None, None;
      } else {
        cursor := Some(window[|window| - 1]);
      }
      Forget(expired);
      forgotten := |expired|;
    }
  }
}
