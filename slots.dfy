/** The `time_slots` table and the two handlers that insert into it:
    single create (`POST /api/slots`) and bulk create (`POST /api/slots/bulk`). */
module Slots {
  import opened Request
  import opened Http

  datatype Status = Available | Pending | Confirmed

  /** A row of `time_slots`. */
  datatype Slot = Slot(id: nat, date: string, startTime: string, endTime: string, status: Status)

  /** The date and times a request asks for, each of which may be absent. */
  datatype SlotSpec = SlotSpec(date: Option<string>, startTime: Option<string>, endTime: Option<string>)

  /** The `!date || !start_time || !end_time` test fails: all three are given. */
  predicate Complete(s: SlotSpec)
  {
    Present(s.date) && Present(s.startTime) && Present(s.endTime)
  }

  /** `SELECT id FROM time_slots WHERE date = ? AND start_time = ?` finds a row. */
  predicate KeyTaken(rows: seq<Slot>, date: string, startTime: string)
  {
    exists i :: 0 <= i < |rows| && rows[i].date == date && rows[i].startTime == startTime
  }

  /** The table invariant: no two rows share a `(date, start_time)`. */
  ghost predicate KeysUnique(rows: seq<Slot>)
  {
    forall i, j :: 0 <= i < j < |rows| ==> rows[i].date != rows[j].date || rows[i].startTime != rows[j].startTime
  }

  /** The table's contents together with the id the next inserted row gets. */
  datatype TableState = TableState(rows: seq<Slot>, nextId: nat)

  /** The ids of the rows ascend in table order and all lie below the next id
      to be assigned, so a newly assigned id belongs to no existing row. */
  ghost predicate IdsAscending(t: TableState)
  {
    && (forall i, j :: 0 <= i < j < |t.rows| ==> t.rows[i].id < t.rows[j].id)
    && (forall i :: 0 <= i < |t.rows| ==> t.rows[i].id < t.nextId)
  }

  /** `INSERT INTO time_slots (date, start_time, end_time, status) VALUES (?, ?, ?, 'available')`. */
  function Insert(t: TableState, s: SlotSpec): (r: TableState)
    requires Complete(s)
  {
    TableState(t.rows + [Slot(t.nextId, s.date.value, s.startTime.value, s.endTime.value, Available)], t.nextId + 1)
  }

  /** The inserted row gets an id no existing row has, and ids keep ascending. */
  lemma InsertKeepsIdsAscending(t: TableState, s: SlotSpec)
    requires Complete(s) && IdsAscending(t)
    ensures IdsAscending(Insert(t, s))
    ensures forall i :: 0 <= i < |t.rows| ==> t.rows[i].id != Insert(t, s).rows[|t.rows|].id
  {
  }

  /** Inserting a key that is not yet taken keeps the keys unique. */
  lemma InsertKeepsUnique(t: TableState, s: SlotSpec)
    requires Complete(s) && !KeyTaken(t.rows, s.date.value, s.startTime.value)
    requires KeysUnique(t.rows)
    ensures KeysUnique(Insert(t, s).rows)
  {
    var rows := Insert(t, s).rows;
    forall i, j | 0 <= i < j < |rows| ensures rows[i].date != rows[j].date || rows[i].startTime != rows[j].startTime {
      if j == |t.rows| {
        assert rows[i] == t.rows[i];
      }
    }
  }

  /** The state of a bulk create after some of its specs: the table and the two counters. */
  datatype Batch = Batch(table: TableState, created: nat, skipped: nat)

  /** One iteration of the bulk create loop. */
  function Step(b: Batch, s: SlotSpec): (next: Batch)
    ensures || (next.created == b.created + 1 && next.skipped == b.skipped)
            || (next.created == b.created && next.skipped == b.skipped + 1)
  {
    if !Complete(s) || KeyTaken(b.table.rows, s.date.value, s.startTime.value) then
      b.(skipped := b.skipped + 1)
    else
      Batch(Insert(b.table, s), b.created + 1, b.skipped)
  }

  /** The bulk create loop run over `specs` in order, from table `t` and zero counters. */
  function Bulk(t: TableState, specs: seq<SlotSpec>): (b: Batch)
    decreases |specs|
  {
    if specs == [] then Batch(t, 0, 0)
    else Step(Bulk(t, specs[..|specs| - 1]), specs[|specs| - 1])
  }

  /** What a bulk create adds up to: every spec is either created or skipped,
      the table grows by exactly the created rows, the old rows stay as they
      were, and every new row is `available` and gets the next id in turn. */
  lemma {:induction false} BulkShape(t: TableState, specs: seq<SlotSpec>)
    ensures Bulk(t, specs).created + Bulk(t, specs).skipped == |specs|
    ensures |Bulk(t, specs).table.rows| == |t.rows| + Bulk(t, specs).created
    ensures Bulk(t, specs).table.rows[..|t.rows|] == t.rows
    ensures Bulk(t, specs).table.nextId == t.nextId + Bulk(t, specs).created
    ensures forall k :: |t.rows| <= k < |Bulk(t, specs).table.rows| ==>
              Bulk(t, specs).table.rows[k].status == Available && Bulk(t, specs).table.rows[k].id == t.nextId + (k - |t.rows|)
    decreases |specs|
  {
    if specs != [] {
      var prev := specs[..|specs| - 1];
      BulkShape(t, prev);
      var b := Bulk(t, prev);
      assert b.table.rows[..|t.rows|] == t.rows;
      var s := specs[|specs| - 1];
      if Complete(s) && !KeyTaken(b.table.rows, s.date.value, s.startTime.value) {
        var rows := Insert(b.table, s).rows;
        assert rows[..|t.rows|] == b.table.rows[..|t.rows|];
      }
    }
  }

  /** A bulk create keeps the keys of the table unique. */
  lemma {:induction false} BulkKeepsUnique(t: TableState, specs: seq<SlotSpec>)
    requires KeysUnique(t.rows)
    ensures KeysUnique(Bulk(t, specs).table.rows)
    decreases |specs|
  {
    if specs != [] {
      var prev := specs[..|specs| - 1];
      BulkKeepsUnique(t, prev);
      var b := Bulk(t, prev);
      var s := specs[|specs| - 1];
      if Complete(s) && !KeyTaken(b.table.rows, s.date.value, s.startTime.value) {
        InsertKeepsUnique(b.table, s);
      }
    }
  }

  /** A bulk create keeps ids ascending: from a table whose ids lie below
      `nextId`, every new row gets an id that no other row has. */
  lemma {:induction false} BulkKeepsIdsAscending(t: TableState, specs: seq<SlotSpec>)
    requires IdsAscending(t)
    ensures IdsAscending(Bulk(t, specs).table)
    decreases |specs|
  {
    if specs != [] {
      var prev := specs[..|specs| - 1];
      BulkKeepsIdsAscending(t, prev);
      var b := Bulk(t, prev);
      var s := specs[|specs| - 1];
      if Complete(s) && !KeyTaken(b.table.rows, s.date.value, s.startTime.value) {
        InsertKeepsIdsAscending(b.table, s);
      }
    }
  }

  /** Running the loop over one more spec is one more `Step`. */
  lemma BulkSnoc(t: TableState, specs: seq<SlotSpec>, i: nat)
    requires i < |specs|
    ensures Bulk(t, specs[..i + 1]) == Step(Bulk(t, specs[..i]), specs[i])
  {
    assert specs[..i + 1][..i] == specs[..i];
  }

  /** A spec without a date, start time or end time is counted as skipped and inserts nothing. */
  lemma BulkSkipsIncomplete(t: TableState, specs: seq<SlotSpec>, i: nat)
    requires i < |specs| && !Complete(specs[i])
    ensures Bulk(t, specs[..i + 1]).table == Bulk(t, specs[..i]).table
    ensures Bulk(t, specs[..i + 1]).created == Bulk(t, specs[..i]).created
    ensures Bulk(t, specs[..i + 1]).skipped == Bulk(t, specs[..i]).skipped + 1
  {
    BulkSnoc(t, specs, i);
  }

  /** Rows never disappear while the loop runs: the table after `m` specs is
      a prefix of the table after `n >= m` specs. */
  lemma {:induction false} BulkGrows(t: TableState, specs: seq<SlotSpec>, m: nat, n: nat)
    requires m <= n <= |specs|
    ensures Bulk(t, specs[..m]).table.rows <= Bulk(t, specs[..n]).table.rows
    decreases n - m
  {
    if m < n {
      BulkGrows(t, specs, m, n - 1);
      BulkSnoc(t, specs, n - 1);
    }
  }

  /** A key that is taken stays taken in a longer table. */
  lemma KeyTakenGrows(rows: seq<Slot>, more: seq<Slot>, date: string, startTime: string)
    requires rows <= more && KeyTaken(rows, date, startTime)
    ensures KeyTaken(more, date, startTime)
  {
    var i :| 0 <= i < |rows| && rows[i].date == date && rows[i].startTime == startTime;
    assert more[i] == rows[i];
  }

  /** A spec whose `(date, start_time)` is already in the table, or was in an
      earlier complete spec of the same batch, is skipped and inserts nothing. */
  lemma BulkSkipsDuplicate(t: TableState, specs: seq<SlotSpec>, i: nat)
    requires i < |specs| && Complete(specs[i])
    requires || KeyTaken(t.rows, specs[i].date.value, specs[i].startTime.value)
             || exists j :: 0 <= j < i && Complete(specs[j]) && specs[j].date == specs[i].date && specs[j].startTime == specs[i].startTime
    ensures Bulk(t, specs[..i + 1]).table == Bulk(t, specs[..i]).table
    ensures Bulk(t, specs[..i + 1]).skipped == Bulk(t, specs[..i]).skipped + 1
  {
    var date, start := specs[i].date.value, specs[i].startTime.value;
    var before := Bulk(t, specs[..i]).table.rows;
    if KeyTaken(t.rows, date, start) {
      BulkGrows(t, specs, 0, i);
      assert specs[..0] == [];
      KeyTakenGrows(t.rows, before, date, start);
    } else {
      var j :| 0 <= j < i && Complete(specs[j]) && specs[j].date == specs[i].date && specs[j].startTime == specs[i].startTime;
      BulkSnoc(t, specs, j);
      var atJ := Bulk(t, specs[..j]).table.rows;
      var afterJ := Bulk(t, specs[..j + 1]).table.rows;
      if !KeyTaken(atJ, date, start) {
        assert afterJ[|afterJ| - 1].date == date && afterJ[|afterJ| - 1].startTime == start;
      } else {
        assert afterJ == atJ;
      }
      assert KeyTaken(afterJ, date, start);
      BulkGrows(t, specs, j + 1, i);
      KeyTakenGrows(afterJ, before, date, start);
    }
    BulkSnoc(t, specs, i);
  }

  /** A key taken after the first `n` specs was in the table at the start or
      is the key of one of those specs that is complete. */
  lemma {:induction false} TakenOnlyFrom(t: TableState, specs: seq<SlotSpec>, n: nat, date: string, startTime: string)
    requires n <= |specs| && KeyTaken(Bulk(t, specs[..n]).table.rows, date, startTime)
    ensures || KeyTaken(t.rows, date, startTime)
            || exists j :: 0 <= j < n && Complete(specs[j]) && specs[j].date == Some(date) && specs[j].startTime == Some(startTime)
    decreases n
  {
    if n == 0 {
      assert specs[..0] == [];
    } else {
      BulkSnoc(t, specs, n - 1);
      var b := Bulk(t, specs[..n - 1]);
      var s := specs[n - 1];
      if KeyTaken(b.table.rows, date, startTime) {
        TakenOnlyFrom(t, specs, n - 1, date, startTime);
      } else {
        // the key was not there before step n - 1, so that step inserted it
        assert Complete(s) && !KeyTaken(b.table.rows, s.date.value, s.startTime.value);
        var rows := Insert(b.table, s).rows;
        var i :| 0 <= i < |rows| && rows[i].date == date && rows[i].startTime == startTime;
        assert i == |b.table.rows|;
      }
    }
  }

  /** The converse of `BulkSkipsDuplicate`: a complete spec whose
      `(date, start_time)` is neither in the table nor in an earlier complete
      spec of the batch is inserted and counted as created. */
  lemma BulkCreatesFresh(t: TableState, specs: seq<SlotSpec>, i: nat)
    requires i < |specs| && Complete(specs[i])
    requires !KeyTaken(t.rows, specs[i].date.value, specs[i].startTime.value)
    requires forall j :: 0 <= j < i && Complete(specs[j]) ==>
               specs[j].date != specs[i].date || specs[j].startTime != specs[i].startTime
    ensures Bulk(t, specs[..i + 1]).table == Insert(Bulk(t, specs[..i]).table, specs[i])
    ensures Bulk(t, specs[..i + 1]).created == Bulk(t, specs[..i]).created + 1
    ensures Bulk(t, specs[..i + 1]).skipped == Bulk(t, specs[..i]).skipped
  {
    var date, start := specs[i].date.value, specs[i].startTime.value;
    if KeyTaken(Bulk(t, specs[..i]).table.rows, date, start) {
      TakenOnlyFrom(t, specs, i, date, start);
      assert false;
    }
    BulkSnoc(t, specs, i);
  }

  /** A table that already holds two slots, and a batch of five specs: two
      collide with those slots, one has no end time, two are new. */
  const ExampleTable := TableState([Slot(1, "2025-06-01", "09:00", "10:00", Available),
                                Slot(2, "2025-06-01", "10:00", "11:00", Pending)], 3)
  const ExampleSpecs := [SlotSpec(Some("2025-06-01"), Some("09:00"), Some("10:00")),
                         SlotSpec(Some("2025-06-02"), Some("09:00"), Some("10:00")),
                         SlotSpec(Some("2025-06-01"), Some("10:00"), Some("11:00")),
                         SlotSpec(Some("2025-06-03"), Some("09:00"), None),
                         SlotSpec(Some("2025-06-03"), Some("10:00"), Some("11:00"))]

  /** The table after the second spec of the example batch. */
  const ExampleGrown := TableState(ExampleTable.rows + [Slot(3, "2025-06-02", "09:00", "10:00", Available)], 4)

  // The example lemmas take the constants as parameters: with literal arguments
  // the verifier unrolls `Bulk` without bound and runs out of resources.
  lemma ExampleFirstTwo(t: TableState, specs: seq<SlotSpec>)
    requires t == ExampleTable && specs == ExampleSpecs
    ensures Bulk(t, specs[..2]) == Batch(ExampleGrown, 1, 1)
  {
    assert specs[..1][..0] == [];
    assert Bulk(t, specs[..1]) == Batch(t, 0, 1) by {
      assert t.rows[0].date == specs[0].date.value && t.rows[0].startTime == specs[0].startTime.value;
    }
    BulkSnoc(t, specs, 1);
    assert !KeyTaken(t.rows, "2025-06-02", "09:00") by {
      assert t.rows[0].date[9] != '2' && t.rows[1].date[9] != '2';
    }
  }

  lemma ExampleLastThree(t: TableState, specs: seq<SlotSpec>)
    requires t == ExampleTable && specs == ExampleSpecs
    requires Bulk(t, specs[..2]) == Batch(ExampleGrown, 1, 1)
    ensures Bulk(t, specs[..5]) == Batch(Insert(ExampleGrown, specs[4]), 2, 3)
  {
    BulkSnoc(t, specs, 2);
    assert ExampleGrown.rows[1] == t.rows[1];
    assert Bulk(t, specs[..3]) == Batch(ExampleGrown, 1, 2);
    BulkSnoc(t, specs, 3);
    BulkSnoc(t, specs, 4);
    assert !KeyTaken(ExampleGrown.rows, "2025-06-03", "10:00") by {
      forall k | 0 <= k < 3 ensures ExampleGrown.rows[k].date[9] != '3' {
      }
    }
  }

  /** The batch above creates two slots and skips three. */
  lemma BulkExample(t: TableState, specs: seq<SlotSpec>)
    requires t == ExampleTable && specs == ExampleSpecs
    ensures Bulk(t, specs).created == 2
    ensures Bulk(t, specs).skipped == 3
  {
    ExampleFirstTwo(t, specs);
    ExampleLastThree(t, specs);
    assert specs[..5] == specs;
  }

  /** What a successful bulk create reports. */
  datatype Counts = Counts(created: nat, skipped: nat)

  /** The `time_slots` table. */
  class SlotTable {
    var rows: seq<Slot>
    var nextId: nat

    function State(): (t: TableState)
      reads this
    {
      TableState(rows, nextId)
    }

    /** An empty table; ids start at 1, as SQLite row ids do. */
    constructor ()
      ensures rows == [] && nextId == 1
      ensures KeysUnique(rows) && IdsAscending(State())
    {
      rows := [];
      nextId := 1;
    }

    /** `POST /api/slots`: admin only; needs a date, a start time and an end
        time; refuses a `(date, start_time)` that is taken with 409; otherwise
        appends one `available` row. */
    method Create(isAdmin: bool, body: SlotSpec) returns (res: Result<()>)
      modifies this
      ensures !isAdmin ==> res == Err(Unauthorized) && State() == old(State())
      ensures isAdmin && !Complete(body) ==> res == Err(BadRequest) && State() == old(State())
      ensures isAdmin && Complete(body) && KeyTaken(old(rows), body.date.value, body.startTime.value) ==>
                res == Err(Conflict) && State() == old(State())
      ensures isAdmin && Complete(body) && !KeyTaken(old(rows), body.date.value, body.startTime.value) ==>
                && res == Ok(())
                && rows == old(rows) + [Slot(old(nextId), body.date.value, body.startTime.value, body.endTime.value, Available)]
                && nextId == old(nextId) + 1
      ensures KeysUnique(old(rows)) ==> KeysUnique(rows)
      ensures IdsAscending(old(State())) ==> IdsAscending(State())
    {
      if !isAdmin {
        return Err(Unauthorized);
      }
      if !Complete(body) {
        return Err(BadRequest);
      }
      if KeyTaken(rows, body.date.value, body.startTime.value) {
        // thrown inside the `try` and passed on by its `catch`
        return Err(Caught(HttpError(Conflict)));
      }
      if KeysUnique(rows) {
        InsertKeepsUnique(State(), body);
      }
      if IdsAscending(State()) {
        InsertKeepsIdsAscending(State(), body);
      }
      rows := rows + [Slot(nextId, body.date.value, body.startTime.value, body.endTime.value, Available)];
      nextId := nextId + 1;
      return Ok(());
    }

    /** `POST /api/slots/bulk`: admin only; needs a non-empty array of specs
        (`None` stands for a `slots` field that is missing or is not an array);
        then inserts each complete spec whose key is free when its turn comes,
        and counts the rest as skipped. */
    method CreateBulk(isAdmin: bool, slots: Option<seq<SlotSpec>>) returns (res: Result<Counts>)
      modifies this
      ensures !isAdmin ==> res == Err(Unauthorized) && State() == old(State())
      ensures isAdmin && (slots.None? || slots.value == []) ==> res == Err(BadRequest) && State() == old(State())
      ensures isAdmin && slots.Some? && slots.value != [] ==>
                && res == Ok(Counts(Bulk(old(State()), slots.value).created, Bulk(old(State()), slots.value).skipped))
                && State() == Bulk(old(State()), slots.value).table
      ensures res.Ok? ==> res.value.created + res.value.skipped == |slots.value|
      ensures res.Ok? ==> |rows| == |old(rows)| + res.value.created && rows[..|old(rows)|] == old(rows)
      ensures KeysUnique(old(rows)) ==> KeysUnique(rows)
      ensures IdsAscending(old(State())) ==> IdsAscending(State())
    {
      if !isAdmin {
        return Err(Unauthorized);
      }
      if slots.None? || slots.value == [] {
        return Err(BadRequest);
      }
      var specs := slots.value;
      ghost var start := State();
      var created, skipped := 0, 0;
      for i := 0 to |specs|
        invariant Batch(State(), created, skipped) == Bulk(start, specs[..i])
      {
        BulkSnoc(start, specs, i);
        var s := specs[i];
        if !Complete(s) {
          skipped := skipped + 1;
          continue;
        }
        if KeyTaken(rows, s.date.value, s.startTime.value) {
          skipped := skipped + 1;
          continue;
        }
        rows := rows + [Slot(nextId, s.date.value, s.startTime.value, s.endTime.value, Available)];
        nextId := nextId + 1;
        created := created + 1;
      }
      assert specs[..|specs|] == specs;
      BulkShape(start, specs);
      if KeysUnique(start.rows) {
        BulkKeepsUnique(start, specs);
      }
      if IdsAscending(start) {
        BulkKeepsIdsAscending(start, specs);
      }
      return Ok(Counts(created, skipped));
    }
  }
}
