/** `GET /api/slots`: the public slot listing. What the handler builds as SQL
    text is modelled by its meaning, a filter followed by a sort. */
module SlotListing {
  import opened Request
  import opened Slots
  import TextOrder
  import Sorting

  /** The query string: `start`, `end` and `available_only`, each possibly absent. */
  datatype SlotQuery = SlotQuery(start: Option<string>, end: Option<string>, availableOnly: Option<string>)

  /** The query with no parameters at all. */
  const NoQuery := SlotQuery(None, None, None)

  /** The `WHERE` clause: each condition is active only when its parameter is
      truthy (`start`, `end`) or exactly `'true'` (`available_only`). */
  predicate Matches(q: SlotQuery, s: Slot)
  {
    && (Present(q.start) ==> TextOrder.Le(q.start.value, s.date))
    && (Present(q.end) ==> TextOrder.Le(s.date, q.end.value))
    && (q.availableOnly == Some("true") ==> s.status == Available)
  }

  /** The rows of the table that satisfy the `WHERE` clause, in table order. */
  function Filter(rows: seq<Slot>, q: SlotQuery): (r: seq<Slot>)
    ensures forall x :: x in r <==> x in rows && Matches(q, x)
    ensures forall x :: multiset(r)[x] == if Matches(q, x) then multiset(rows)[x] else 0
  {
    if rows == [] then []
    else
      assert rows == [rows[0]] + rows[1..];
      if Matches(q, rows[0]) then [rows[0]] + Filter(rows[1..], q)
      else Filter(rows[1..], q)
  }

  /** `ORDER BY date, start_time`. */
  predicate Before(a: Slot, b: Slot)
  {
    TextOrder.Lt(a.date, b.date) || (a.date == b.date && TextOrder.Le(a.startTime, b.startTime))
  }

  lemma BeforeIsTotalPreorder()
    ensures Sorting.TotalPreorder(Before)
  {
    forall a: Slot, b: Slot ensures Before(a, b) || Before(b, a) {
      TextOrder.Trichotomy(a.date, b.date);
      TextOrder.LeTotal(a.startTime, b.startTime);
    }
    forall a: Slot, b: Slot, c: Slot | Before(a, b) && Before(b, c) ensures Before(a, c) {
      if a.date == b.date && b.date == c.date {
        TextOrder.LeTransitive(a.startTime, b.startTime, c.startTime);
      } else {
        TextOrder.LeReflexive(b.date);
        TextOrder.LeTransitive(a.date, b.date, c.date);
        if a.date == c.date {
          TextOrder.LeAntisymmetric(a.date, b.date);
        }
      }
    }
  }

  /** The listing: exactly the rows satisfying every active condition, each
      as many times as it is in the table, in `(date, start_time)` order. */
  function ListSlots(rows: seq<Slot>, q: SlotQuery): (r: seq<Slot>)
    ensures forall x :: x in r <==> x in rows && Matches(q, x)
    ensures forall x :: multiset(r)[x] == if Matches(q, x) then multiset(rows)[x] else 0
    ensures Sorting.Sorted(r, Before)
  {
    var matching := Filter(rows, q);
    BeforeIsTotalPreorder();
    Sorting.SortSorted(matching, Before);
    Sorting.SortSameElements(matching, Before);
    Sorting.Sort(matching, Before)
  }

  /** With no active condition the filter keeps every row. */
  lemma {:induction false} FilterKeepsAll(rows: seq<Slot>, q: SlotQuery)
    requires !Present(q.start) && !Present(q.end) && q.availableOnly != Some("true")
    ensures Filter(rows, q) == rows
    decreases |rows|
  {
    if rows != [] {
      FilterKeepsAll(rows[1..], q);
      assert rows == [rows[0]] + rows[1..];
    }
  }

  /** With no parameters the listing returns every row of the table. */
  lemma ListWithoutQueryIsWholeTable(rows: seq<Slot>)
    ensures multiset(ListSlots(rows, NoQuery)) == multiset(rows)
  {
    FilterKeepsAll(rows, NoQuery);
  }

  /** A `start` parameter that is absent or the empty string applies no lower bound. */
  lemma {:induction false} FilterIgnoresFalsyStart(rows: seq<Slot>, q: SlotQuery)
    requires !Present(q.start)
    ensures Filter(rows, q) == Filter(rows, q.(start := None))
    decreases |rows|
  {
    if rows != [] {
      FilterIgnoresFalsyStart(rows[1..], q);
    }
  }

  /** An `end` parameter that is absent or the empty string applies no upper bound. */
  lemma {:induction false} FilterIgnoresFalsyEnd(rows: seq<Slot>, q: SlotQuery)
    requires !Present(q.end)
    ensures Filter(rows, q) == Filter(rows, q.(end := None))
    decreases |rows|
  {
    if rows != [] {
      FilterIgnoresFalsyEnd(rows[1..], q);
    }
  }

  /** Only the exact string `'true'` for `available_only` filters by status:
      any other value gives the same listing as leaving it out. */
  lemma {:induction false} FilterIgnoresOtherAvailableOnly(rows: seq<Slot>, q: SlotQuery)
    requires q.availableOnly != Some("true")
    ensures Filter(rows, q) == Filter(rows, q.(availableOnly := None))
    decreases |rows|
  {
    if rows != [] {
      FilterIgnoresOtherAvailableOnly(rows[1..], q);
    }
  }

  lemma ListIgnoresOtherAvailableOnly(rows: seq<Slot>, q: SlotQuery)
    requires q.availableOnly != Some("true")
    ensures ListSlots(rows, q) == ListSlots(rows, q.(availableOnly := None))
  {
    FilterIgnoresOtherAvailableOnly(rows, q);
  }

  /** The listing's order spelled out: by date, and by start time within a date. */
  lemma ListOrderedByDateThenStart(rows: seq<Slot>, q: SlotQuery)
    ensures forall i, j :: 0 <= i < j < |ListSlots(rows, q)| ==>
              && TextOrder.Le(ListSlots(rows, q)[i].date, ListSlots(rows, q)[j].date)
              && (ListSlots(rows, q)[i].date == ListSlots(rows, q)[j].date ==>
                    TextOrder.Le(ListSlots(rows, q)[i].startTime, ListSlots(rows, q)[j].startTime))
  {
    var r := ListSlots(rows, q);
    forall i, j | 0 <= i < j < |r|
      ensures TextOrder.Le(r[i].date, r[j].date)
      ensures r[i].date == r[j].date ==> TextOrder.Le(r[i].startTime, r[j].startTime)
    {
      assert Before(r[i], r[j]);
      TextOrder.LeReflexive(r[i].date);
      TextOrder.Trichotomy(r[i].date, r[j].date);
    }
  }
}
