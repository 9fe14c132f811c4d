/** Which mutations of a history still wait for an outcome: a class that keeps the answer up
    to date record by record, proved to hold it (src/sync/control/pending.rs). */
module Pending {
  import opened Base

  datatype Scope = Scope(source: Text, bucket: Text)

  datatype Cursor = Cursor(scope: Scope, nextSlot: u64)

  datatype Record =
    | Intent(op: Text, key: Text)
    | Outcome(op: Text, slot: u64, key: Text)
    | ReaderAdmission

  datatype JournalError = ConfigMismatch | Capacity | Corrupt

  datatype Opened = Opened(key: Text, slot: u64)

  datatype View = View(scope: Option<Scope>, nextSlot: u64, seen: set<Text>, byOp: map<Text, Opened>,
                       byKey: map<Text, set<Text>>)

  const EMPTY := View(None, 0, {}, map[], map[])

  // ----- what a history leaves open -----

  ghost predicate IntentAt(h: seq<Record>, i: nat, op: Text, key: Text) { i < |h| && h[i] == Intent(op, key) }

  ghost predicate ResolvedAt(h: seq<Record>, j: nat, op: Text) { j < |h| && h[j].Outcome? && h[j].op == op }

  ghost predicate Resolved(h: seq<Record>, op: Text) { exists j: nat :: ResolvedAt(h, j, op) }

  /** The operation was intended at `i` for `key` and has no outcome. */
  ghost predicate Open(h: seq<Record>, i: nat, op: Text, key: Text) { IntentAt(h, i, op, key) && !Resolved(h, op) }

  /** Every operation is intended once, and every outcome answers that one intent. */
  ghost predicate WellFormed(h: seq<Record>) {
    && (forall i: nat, j: nat :: i < j < |h| && h[i].Intent? && h[j].Intent? ==> h[i].op != h[j].op)
    && (forall j: nat :: j < |h| && h[j].Outcome? ==> h[j].slot < j && h[h[j].slot] == Intent(h[j].op, h[j].key))
    && (forall i: nat, j: nat :: i < j < |h| && h[i].Outcome? && h[j].Outcome? ==> h[i].op != h[j].op)
  }

  /** The projection holds exactly the open intents, both ways round, with no empty sets. */
  ghost predicate Projects(v: View, h: seq<Record>) {
    && v.nextSlot == |h|
    && (v.scope.None? <==> h == [])
    && (forall op :: op in v.seen <==> exists i: nat :: i < |h| && h[i].Intent? && h[i].op == op)
    && (forall op :: op in v.byOp ==> Open(h, v.byOp[op].slot, op, v.byOp[op].key))
    && (forall i: nat :: i < |h| && h[i].Intent? && !Resolved(h, h[i].op) ==>
        h[i].op in v.byOp && v.byOp[h[i].op] == Opened(h[i].key, i))
    && Inverse(v)
  }

  ghost predicate Inverse(v: View) {
    && (forall op :: op in v.byOp ==> v.byOp[op].key in v.byKey && op in v.byKey[v.byOp[op].key])
    && (forall key, op :: key in v.byKey && op in v.byKey[key] ==> op in v.byOp && v.byOp[op].key == key)
    && (forall key :: key in v.byKey ==> v.byKey[key] != {})
  }

  class PendingSet {
    var scope: Option<Scope>
    var nextSlot: u64
    var seen: set<Text>
    var byOp: map<Text, Opened>
    var byKey: map<Text, set<Text>>

    /** The records accepted so far. */
    ghost var history: seq<Record>

    ghost function Now(): View
      reads this
    {
      View(scope, nextSlot, seen, byOp, byKey)
    }

    ghost predicate Valid()
      reads this
    {
      WellFormed(history) && Projects(Now(), history)
    }

    constructor ()
      ensures Valid() && Now() == EMPTY && history == []
    {
      scope, nextSlot, seen, byOp, byKey, history := None, 0, {}, map[], map[], [];
      new;
      NothingProjected();
    }

    /** Accepts exactly what `Accepted` says, and then moves to `Applied`. */
    method ApplyAt(cursor: Cursor, record: Record) returns (r: Result<(), JournalError>)
      requires Valid()
      modifies this
      ensures Valid()
      ensures Accepted(old(Now()), cursor, record) <==> r.Ok?
      ensures Now() == if r.Ok? then Applied(old(Now()), cursor, record) else old(Now())
      ensures history == if r.Ok? then old(history) + [record] else old(history)
    {
      hide WellFormed, Projects, Utf8;
      if cursor.nextSlot != nextSlot || (scope.Some? && scope.value != cursor.scope) || (scope.None? && nextSlot != 0) {
        return Err(ConfigMismatch);
      }
      if nextSlot + 1 >= U64_LIMIT {
        return Err(Capacity);
      }
      match record {
        case Intent(op, key) =>
          if op == [] || key == [] {
            return Err(Corrupt);
          }
          if op in seen {
            return Err(Corrupt);
          }
          seen := seen + {op};
          byOp := byOp[op := Opened(key, cursor.nextSlot)];
          byKey := byKey[key := (if key in byKey then byKey[key] else {}) + {op}];
        case Outcome(op, slot, key) =>
          if op !in byOp || byOp[op] != Opened(key, slot) {
            return Err(Corrupt);
          }
          if key !in byKey || op !in byKey[key] {
            return Err(Corrupt);
          }
          var ops := byKey[key] - {op};
          byOp := byOp - {op};
          byKey := if ops == {} then byKey - {key} else byKey[key := ops];
        case ReaderAdmission =>
      }
      if scope.None? {
        scope := Some(cursor.scope);
      }
      nextSlot := nextSlot + 1;
      history := history + [record];
      WellFormedNext(old(Now()), old(history), record, cursor);
      ProjectsNext(old(Now()), old(history), record, cursor);
      return Ok(());
    }

    /** The operations the history left open on the key, and nothing if it left none. */
    method OperationsFor(key: Text) returns (ops: Option<set<Text>>)
      requires Valid()
      ensures ops.Some? <==> exists i: nat, op: Text :: Open(history, i, op, key)
      ensures forall op: Text :: (ops.Some? && op in ops.value) <==> exists i: nat :: Open(history, i, op, key)
    {
      OpenOn(Now(), history, key);
      return if key in byKey then Some(byKey[key]) else None;
    }

    /** Whether every intent of the history has its outcome. */
    method IsEmpty() returns (empty: bool)
      requires Valid()
      ensures empty <==> forall i: nat :: i < |history| && history[i].Intent? ==> Resolved(history, history[i].op)
    {
      NoneOpen(Now(), history);
      return byOp == map[];
    }
  }

  predicate Accepted(v: View, cursor: Cursor, record: Record) {
    && cursor.nextSlot == v.nextSlot && (v.scope.Some? ==> v.scope.value == cursor.scope)
    && (v.scope.None? ==> v.nextSlot == 0)
    && v.nextSlot + 1 < U64_LIMIT
    && match record
       case Intent(op, key) => op != [] && key != [] && op !in v.seen
       case Outcome(op, slot, key) =>
         op in v.byOp && v.byOp[op] == Opened(key, slot) && key in v.byKey && op in v.byKey[key]
       case ReaderAdmission => true
  }

  function Applied(v: View, cursor: Cursor, record: Record): View
    requires Accepted(v, cursor, record)
  {
    var moved := v.(scope := if v.scope.None? then Some(cursor.scope) else v.scope, nextSlot := v.nextSlot + 1);
    match record
    case Intent(op, key) =>
      moved.(seen := v.seen + {op}, byOp := v.byOp[op := Opened(key, cursor.nextSlot)],
             byKey := v.byKey[key := (if key in v.byKey then v.byKey[key] else {}) + {op}])
    case Outcome(op, slot, key) =>
      var ops := v.byKey[key] - {op};
      moved.(byOp := v.byOp - {op}, byKey := if ops == {} then v.byKey - {key} else v.byKey[key := ops])
    case ReaderAdmission => moved
  }

  // ----- every accepted history -----

  /** The projection after the records, each offered at its own position; none if any is
      rejected. */
  function Project(scope: Scope, h: seq<Record>): Option<View> {
    if h == [] then Some(EMPTY) else
    match Project(scope, h[..|h| - 1])
    case None => None
    case Some(v) =>
      var cursor := Cursor(scope, v.nextSlot);
      if Accepted(v, cursor, h[|h| - 1]) then Some(Applied(v, cursor, h[|h| - 1])) else None
  }

  lemma InverseKept(v: View, cursor: Cursor, record: Record)
    requires Accepted(v, cursor, record) && Inverse(v) && forall op :: op in v.byOp ==> op in v.seen
    ensures Inverse(Applied(v, cursor, record))
  {
    hide Utf8, Inverse;
    match record {
      case Intent(op, key) => InverseOpened(v, op, key, Applied(v, cursor, record));
      case Outcome(op, slot, key) => InverseClosed(v, op, key, Applied(v, cursor, record));
      case ReaderAdmission => InverseSame(v, Applied(v, cursor, record));
    }
  }

  lemma InverseSame(v: View, t: View)
    requires Inverse(v) && t.byOp == v.byOp && t.byKey == v.byKey
    ensures Inverse(t)
  {}

  lemma InverseOpened(v: View, op: Text, key: Text, t: View)
    requires Inverse(v) && op !in v.byOp && op in t.byOp && t.byOp == v.byOp[op := t.byOp[op]] && t.byOp[op].key == key
    requires t.byKey == v.byKey[key := (if key in v.byKey then v.byKey[key] else {}) + {op}]
    ensures Inverse(t)
  {
    hide Utf8;
  }

  lemma InverseClosed(v: View, op: Text, key: Text, t: View)
    requires Inverse(v) && op in v.byOp && v.byOp[op].key == key && key in v.byKey && t.byOp == v.byOp - {op}
    requires var ops := v.byKey[key] - {op}; t.byKey == if ops == {} then v.byKey - {key} else v.byKey[key := ops]
    ensures Inverse(t)
  {
    hide Utf8;
  }

  lemma ResolvedNext(h: seq<Record>, x: Record, op: Text)
    ensures Resolved(h + [x], op) <==> Resolved(h, op) || (x.Outcome? && x.op == op)
  {
    hide Utf8;
    if Resolved(h, op) { var j: nat :| ResolvedAt(h, j, op); assert ResolvedAt(h + [x], j, op); }
    if x.Outcome? && x.op == op { assert ResolvedAt(h + [x], |h|, op); }
    if Resolved(h + [x], op) { var j: nat :| ResolvedAt(h + [x], j, op); if j < |h| { assert ResolvedAt(h, j, op); } }
  }

  lemma OpenIsSeen(v: View, h: seq<Record>, op: Text)
    requires Projects(v, h) && op in v.byOp
    ensures op in v.seen
  {
    hide Utf8, Inverse, Resolved;
    assert IntentAt(h, v.byOp[op].slot, op, v.byOp[op].key);
  }

  lemma WellFormedNext(v: View, h: seq<Record>, x: Record, cursor: Cursor)
    requires WellFormed(h) && Projects(v, h) && Accepted(v, cursor, x)
    ensures WellFormed(h + [x])
  {
    hide Utf8, Inverse;
    if x.Outcome? {
      assert Open(h, v.byOp[x.op].slot, x.op, v.byOp[x.op].key);
      forall i: nat | i < |h| && h[i].Outcome? ensures h[i].op != x.op {
        assert ResolvedAt(h, i, h[i].op);
      }
      hide Resolved;
    }
  }

  lemma OpenNext(v: View, h: seq<Record>, x: Record, cursor: Cursor, op: Text)
    requires WellFormed(h) && Projects(v, h) && Accepted(v, cursor, x) && op in Applied(v, cursor, x).byOp
    ensures var t := Applied(v, cursor, x); Open(h + [x], t.byOp[op].slot, op, t.byOp[op].key)
  {
    hide Utf8, Inverse, Resolved;
    ResolvedNext(h, x, op);
    if op in v.byOp { OpenIsSeen(v, h, op); }
    var t := Applied(v, cursor, x);
    if op in v.byOp && t.byOp[op] == v.byOp[op] && !(x.Intent? && x.op == op) {
      assert Open(h, v.byOp[op].slot, op, v.byOp[op].key);
    } else {
      assert x == Intent(op, t.byOp[op].key) && (h + [x])[|h|] == x;
      UnseenUnresolved(v, h, op);
    }
  }

  lemma IntentNext(v: View, h: seq<Record>, x: Record, cursor: Cursor, i: nat)
    requires Projects(v, h) && Accepted(v, cursor, x) && i <= |h|
    requires (h + [x])[i].Intent? && !Resolved(h + [x], (h + [x])[i].op)
    ensures var (t, r) := (Applied(v, cursor, x), (h + [x])[i]); r.op in t.byOp && t.byOp[r.op] == Opened(r.key, i)
  {
    hide Utf8, Inverse, Resolved;
    ResolvedNext(h, x, (h + [x])[i].op);
    if i < |h| { assert h[i] == (h + [x])[i]; assert h[i].op in v.seen; }
  }

  lemma ProjectsNext(v: View, h: seq<Record>, x: Record, cursor: Cursor)
    requires WellFormed(h) && Projects(v, h) && Accepted(v, cursor, x)
    ensures Projects(Applied(v, cursor, x), h + [x])
  {
    hide Utf8, Inverse, Resolved, WellFormed, Open;
    forall op | op in v.byOp ensures op in v.seen { OpenIsSeen(v, h, op); }
    InverseKept(v, cursor, x);
    SeenNext(v, h, x, cursor);
    var t := Applied(v, cursor, x);
    var g := h + [x];
    forall op | op in t.byOp ensures Open(g, t.byOp[op].slot, op, t.byOp[op].key) { OpenNext(v, h, x, cursor, op); }
    forall i: nat | i < |g| && g[i].Intent? && !Resolved(g, g[i].op)
      ensures g[i].op in t.byOp && t.byOp[g[i].op] == Opened(g[i].key, i)
    {
      IntentNext(v, h, x, cursor, i);
    }
  }

  /** An operation never intended cannot have an outcome. */
  lemma UnseenUnresolved(v: View, h: seq<Record>, op: Text)
    requires WellFormed(h) && Projects(v, h) && op !in v.seen
    ensures !Resolved(h, op)
  {
    hide Utf8, Inverse;
    if Resolved(h, op) {
      var j: nat :| ResolvedAt(h, j, op);
    }
  }

  lemma SeenNext(v: View, h: seq<Record>, x: Record, cursor: Cursor)
    requires Projects(v, h) && Accepted(v, cursor, x)
    ensures forall op :: op in Applied(v, cursor, x).seen <==>
        exists i: nat :: i < |h + [x]| && (h + [x])[i].Intent? && (h + [x])[i].op == op
  {
    hide Utf8, Inverse, Resolved;
    var g := h + [x];
    forall op ensures op in Applied(v, cursor, x).seen <==> exists i: nat :: i < |g| && g[i].Intent? && g[i].op == op {
      if op in v.seen { var i: nat :| i < |h| && h[i].Intent? && h[i].op == op; assert g[i] == h[i]; }
      if x.Intent? && x.op == op { assert g[|h|] == x; }
      if exists i: nat :: i < |g| && g[i].Intent? && g[i].op == op {
        var i: nat :| i < |g| && g[i].Intent? && g[i].op == op;
        if i < |h| { assert h[i] == g[i]; }
      }
    }
  }

  /** After any accepted history the projection is exactly its open intents and the keys
      they fence, and the history itself reuses no operation and answers none twice. */
  lemma {:induction false} ProjectionIs(scope: Scope, h: seq<Record>)
    requires Project(scope, h).Some?
    ensures WellFormed(h) && Projects(Project(scope, h).value, h)
  {
    hide Utf8, Accepted, Applied, WellFormed, Projects;
    if h == [] {
      NothingProjected();
    } else {
      var n := |h| - 1;
      ProjectionIs(scope, h[..n]);
      var v := Project(scope, h[..n]).value;
      assert h == h[..n] + [h[n]];
      WellFormedNext(v, h[..n], h[n], Cursor(scope, v.nextSlot));
      ProjectsNext(v, h[..n], h[n], Cursor(scope, v.nextSlot));
    }
  }

  lemma NothingProjected()
    ensures WellFormed([]) && Projects(EMPTY, [])
  {}

  lemma OpenOn(v: View, h: seq<Record>, key: Text)
    requires Projects(v, h)
    ensures key in v.byKey <==> exists i: nat, op: Text :: Open(h, i, op, key)
    ensures forall op: Text :: (key in v.byKey && op in v.byKey[key]) <==> exists i: nat :: Open(h, i, op, key)
  {
    hide Utf8, Resolved;
    forall op: Text ensures (key in v.byKey && op in v.byKey[key]) <==> exists i: nat :: Open(h, i, op, key) {
      if key in v.byKey && op in v.byKey[key] { assert Open(h, v.byOp[op].slot, op, key); }
      if exists i: nat :: Open(h, i, op, key) { var i: nat :| Open(h, i, op, key); assert h[i].op in v.byOp; }
    }
    if key in v.byKey {
      var op: Text :| op in v.byKey[key];
      assert Open(h, v.byOp[op].slot, op, key);
    }
  }

  lemma NoneOpen(v: View, h: seq<Record>)
    requires Projects(v, h)
    ensures v.byOp == map[] <==> forall i: nat :: i < |h| && h[i].Intent? ==> Resolved(h, h[i].op)
  {
    hide Utf8, Inverse, Resolved;
    if v.byOp != map[] {
      var op: Text :| op in v.byOp;
      assert Open(h, v.byOp[op].slot, op, v.byOp[op].key);
      var i: nat := v.byOp[op].slot;
      assert h[i].Intent? && !Resolved(h, h[i].op);
    }
  }

  /** The projection is empty exactly when every recorded intent has its outcome. */
  lemma EmptyWhenResolved(scope: Scope, h: seq<Record>)
    requires Project(scope, h).Some?
    ensures Project(scope, h).value.byOp == map[] <==> forall i: nat :: i < |h| && h[i].Intent? ==> Resolved(h, h[i].op)
  {
    hide Utf8, Project, Projects, Resolved, WellFormed;
    ProjectionIs(scope, h);
    NoneOpen(Project(scope, h).value, h);
  }
}
