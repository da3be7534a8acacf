/**
  What a sequence of `insert_message` calls does to the table, taken one call
  after another: rows are never changed once stored, a `message_id` is created
  at most once, and, with no engine failure, repeating an insert leaves the
  table as one insert does.
*/
module Idempotence {
  import opened Wrappers
  import opened MessageTable
  import opened Storage

  /** The inputs of one call: the message, the clock reading, and any engine failure. */
  datatype Call = Call(message: MessageDict, utcNow: string, fault: Option<string>)

  /** The outcomes of a sequence of calls, in order, and the table after the last. */
  datatype Run = Run(outcomes: seq<Outcome>, table: Table)

  /** The calls applied in order, starting from table `t`. */
  function Replay(t: Table, calls: seq<Call>): (r: Run)
    ensures |r.outcomes| == |calls|
    decreases |calls|
  {
    if calls == [] then Run([], t)
    else
      var s := Insert(t, calls[0].message, calls[0].utcNow, calls[0].fault);
      var rest := Replay(s.table, calls[1..]);
      Run([s.outcome] + rest.outcomes, rest.table)
  }

  /** The number of calls reported as created. */
  function CreatedCount(outcomes: seq<Outcome>): (n: nat)
    ensures n <= |outcomes|
  {
    if outcomes == [] then 0
    else (if outcomes[0] == Returned(Created) then 1 else 0) + CreatedCount(outcomes[1..])
  }

  /** Rows are never updated or deleted: every row present before is present, unchanged, after. */
  lemma {:induction false} RowsArePermanent(t: Table, calls: seq<Call>)
    ensures t.Keys <= Replay(t, calls).table.Keys
    ensures forall id :: id in t ==> Replay(t, calls).table[id] == t[id]
    decreases |calls|
  {
    if calls != [] {
      var s := Insert(t, calls[0].message, calls[0].utcNow, calls[0].fault);
      RowsArePermanent(s.table, calls[1..]);
    }
  }

  /** Each call keeps every row stored under its own `message_id`. */
  lemma {:induction false} ReplayKeepsKeys(t: Table, calls: seq<Call>)
    requires WellKeyed(t)
    ensures WellKeyed(Replay(t, calls).table)
    decreases |calls|
  {
    if calls != [] {
      var s := Insert(t, calls[0].message, calls[0].utcNow, calls[0].fault);
      ReplayKeepsKeys(s.table, calls[1..]);
    }
  }

  /** Exactly one row is added per call reported as created, and no row otherwise. */
  lemma {:induction false} OneRowPerCreated(t: Table, calls: seq<Call>)
    ensures |Replay(t, calls).table| == |t| + CreatedCount(Replay(t, calls).outcomes)
    decreases |calls|
  {
    if calls != [] {
      var s := Insert(t, calls[0].message, calls[0].utcNow, calls[0].fault);
      if s.outcome == Returned(Created) {
        CreatedAddsOneRow(t, calls[0].message, calls[0].utcNow, calls[0].fault);
      }
      OneRowPerCreated(s.table, calls[1..]);
      var r := Replay(t, calls);
      assert r.outcomes[1..] == Replay(s.table, calls[1..]).outcomes;
    }
  }

  /** A call reported as created had an id that was not yet in the starting table. */
  lemma {:induction false} CreatedIdWasAbsent(t: Table, calls: seq<Call>, j: nat)
    requires j < |calls| && Replay(t, calls).outcomes[j] == Returned(Created)
    ensures IdOf(calls[j].message).Some? && IdOf(calls[j].message).value !in t
    decreases j
  {
    var s := Insert(t, calls[0].message, calls[0].utcNow, calls[0].fault);
    if j > 0 {
      assert Replay(s.table, calls[1..]).outcomes[j - 1] == Returned(Created);
      CreatedIdWasAbsent(s.table, calls[1..], j - 1);
    }
  }

  /**
    A `message_id` is created at most once: two different calls reported as
    created carry different ids (that an id already stored is never created
    is `CreatedIdWasAbsent`).
  */
  lemma {:induction false} CreatedAtMostOnce(t: Table, calls: seq<Call>, i: nat, j: nat)
    requires i < j < |calls|
    requires Replay(t, calls).outcomes[i] == Returned(Created)
    requires Replay(t, calls).outcomes[j] == Returned(Created)
    ensures IdOf(calls[i].message) != IdOf(calls[j].message)
    decreases i
  {
    var s := Insert(t, calls[0].message, calls[0].utcNow, calls[0].fault);
    assert Replay(s.table, calls[1..]).outcomes[j - 1] == Returned(Created);
    if i == 0 {
      CreatedIdWasAbsent(s.table, calls[1..], j - 1);
    } else {
      assert Replay(s.table, calls[1..]).outcomes[i - 1] == Returned(Created);
      CreatedAtMostOnce(s.table, calls[1..], i - 1, j - 1);
    }
  }

  /**
    Once `id` is stored, calls carrying that id are duplicates or raise, and
    the table is left exactly as it was, whatever the rest of their bodies.
  */
  lemma {:induction false} StoredIdIsNoOp(t: Table, id: string, calls: seq<Call>)
    requires id in t
    requires forall k :: 0 <= k < |calls| ==> IdOf(calls[k].message) == Some(id)
    ensures Replay(t, calls).table == t
    ensures forall k :: 0 <= k < |calls| ==> Replay(t, calls).outcomes[k] != Returned(Created)
    decreases |calls|
  {
    if calls != [] {
      var s := Insert(t, calls[0].message, calls[0].utcNow, calls[0].fault);
      assert s.table == t;
      StoredIdIsNoOp(t, id, calls[1..]);
      var r := Replay(t, calls);
      assert r.outcomes == [s.outcome] + Replay(t, calls[1..]).outcomes;
      assert forall k :: 1 <= k < |calls| ==> r.outcomes[k] == Replay(t, calls[1..]).outcomes[k - 1];
    }
  }

  /** The same message inserted once per clock reading, with no engine failure. */
  function Repeated(m: MessageDict, clocks: seq<string>): (calls: seq<Call>)
    ensures |calls| == |clocks|
    ensures forall k :: 0 <= k < |clocks| ==> calls[k] == Call(m, clocks[k], None)
  {
    if clocks == [] then [] else [Call(m, clocks[0], None)] + Repeated(m, clocks[1..])
  }

  /**
    Idempotence by `message_id`: with no engine failure, inserting the same
    message any number of times (at least once) leaves the table the first
    insert leaves, and only that first insert can be reported as created.
  */
  lemma {:induction false} RepeatedInsertIsIdempotent(t: Table, m: MessageDict, clocks: seq<string>)
    requires |clocks| >= 1
    ensures Replay(t, Repeated(m, clocks)).table == Insert(t, m, clocks[0], None).table
    ensures HasRequiredFields(m) ==>
              forall k :: 1 <= k < |clocks| ==> Replay(t, Repeated(m, clocks)).outcomes[k] == Returned(Duplicate)
  {
    var calls := Repeated(m, clocks);
    var s := Insert(t, m, clocks[0], None);
    var rest := calls[1..];
    if HasRequiredFields(m) {
      var id := m["message_id"];
      assert id in s.table;
      assert forall k :: 0 <= k < |rest| ==> IdOf(rest[k].message) == Some(id);
      StoredIdIsNoOp(s.table, id, rest);
      var r := Replay(t, calls);
      forall k | 1 <= k < |clocks|
        ensures r.outcomes[k] == Returned(Duplicate)
      {
        assert r.outcomes[k] == Replay(s.table, rest).outcomes[k - 1];
        assert rest[k - 1] == Call(m, clocks[k], None);
        assert Replay(s.table, rest).outcomes[k - 1] != Returned(Created);
        assert rest[k - 1].fault.None? && HasRequiredFields(rest[k - 1].message);
        RaisesOnlyOnFault(s.table, rest, k - 1);
        var o := Replay(s.table, rest).outcomes[k - 1];
        assert o.Returned? && o.status != Created;
      }
    } else {
      RaisesWithoutFields(t, m, clocks);
    }
  }

  /** In a replay, a call without an engine failure on a complete message returns normally. */
  lemma {:induction false} RaisesOnlyOnFault(t: Table, calls: seq<Call>, j: nat)
    requires j < |calls|
    requires calls[j].fault.None? && HasRequiredFields(calls[j].message)
    ensures Replay(t, calls).outcomes[j].Returned?
    decreases j
  {
    if j > 0 {
      var s := Insert(t, calls[0].message, calls[0].utcNow, calls[0].fault);
      RaisesOnlyOnFault(s.table, calls[1..], j - 1);
    }
  }

  /** A message missing a required field raises every time and never changes the table. */
  lemma {:induction false} RaisesWithoutFields(t: Table, m: MessageDict, clocks: seq<string>)
    requires !HasRequiredFields(m)
    ensures Replay(t, Repeated(m, clocks)).table == t
    ensures forall k :: 0 <= k < |clocks| ==> Replay(t, Repeated(m, clocks)).outcomes[k].Raised?
    decreases |clocks|
  {
    if clocks != [] {
      var calls := Repeated(m, clocks);
      assert calls[1..] == Repeated(m, clocks[1..]);
      RaisesWithoutFields(t, m, clocks[1..]);
      var r := Replay(t, calls);
      assert forall k :: 1 <= k < |clocks| ==> r.outcomes[k] == Replay(t, calls[1..]).outcomes[k - 1];
    }
  }

  /**
    A second insert with the same `message_id`, whatever its other fields and
    whenever it happens, is a duplicate and leaves the first row, including its
    `created_at`, as it was.
  */
  lemma SecondInsertKeepsFirstRow(t: Table, m1: MessageDict, c1: string, m2: MessageDict, c2: string)
    requires HasRequiredFields(m1) && HasRequiredFields(m2)
    requires m1["message_id"] == m2["message_id"] && m1["message_id"] !in t
    ensures var first := Insert(t, m1, c1, None);
            var second := Insert(first.table, m2, c2, None);
            && first.outcome == Returned(Created)
            && second.outcome == Returned(Duplicate)
            && second.table == first.table
            && second.table[m1["message_id"]] == BuildRow(m1, c1).value
            && second.table[m1["message_id"]].createdAt == Stamp(c1)
  {
    CreatedAddsOneRow(t, m1, c1, None);
  }
}
