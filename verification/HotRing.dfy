/**
  A target's hot history ring: its newest rows, in the record's order, under an
  entry cap and a byte budget, with its newest time per reader scope kept as
  rows come and go.
 */
module HotRing {
  import opened Wrappers
  import opened History

  const HISTORY_RING_CAP: nat := 500

  function Footprints(rows: seq<Row>): nat {
    if rows == [] then 0 else rows[0].footprint + Footprints(rows[1..])
  }

  /** Whether a reader's scope admits a row: one without `message-tags` is never
      sent a TAGMSG. */
  predicate Admits(withTags: bool, row: Row) {
    withTags || !row.tagmsg
  }

  function Admitted(rows: seq<Row>, withTags: bool): nat {
    if rows == [] then 0 else (if Admits(withTags, rows[0]) then 1 else 0) + Admitted(rows[1..], withTags)
  }

  function LaterOf(a: Option<nat>, b: Option<nat>): Option<nat> {
    if a.None? then b else if b.None? || b.value <= a.value then a else b
  }

  /** The newest time among the rows a scope admits, counted afresh. */
  function NewestOf(rows: seq<Row>, withTags: bool): Option<nat> {
    if rows == [] then None
    else LaterOf(if Admits(withTags, rows[0]) then Some(rows[0].ts) else None, NewestOf(rows[1..], withTags))
  }

  /** One scope's running count and newest time. */
  datatype ScopeNewest = ScopeNewest(held: nat, newest: Option<nat>) {
    function Push(ts: nat): ScopeNewest {
      ScopeNewest(held + 1, LaterOf(newest, Some(ts)))
    }

    function ExpireOldest(): ScopeNewest
      requires held > 0
    {
      ScopeNewest(held - 1, if held == 1 then None else newest)
    }
  }

  function Recount(rows: seq<Row>, withTags: bool): ScopeNewest {
    ScopeNewest(Admitted(rows, withTags), NewestOf(rows, withTags))
  }

  /** The newest time is that of a row the reader is sent, and none it is sent is later;
      there is none exactly when it is sent nothing. */
  lemma {:induction false} NewestIff(rows: seq<Row>, withTags: bool)
    ensures NewestOf(rows, withTags).None? <==> forall i | 0 <= i < |rows| :: !withTags && rows[i].tagmsg
    ensures NewestOf(rows, withTags).Some? ==>
              && (forall i | 0 <= i < |rows| && (withTags || !rows[i].tagmsg) :: rows[i].ts <= NewestOf(rows, withTags).value)
              && exists i | 0 <= i < |rows| :: (withTags || !rows[i].tagmsg) && rows[i].ts == NewestOf(rows, withTags).value
  {
    if rows != [] {
      var rest := rows[1..];
      NewestIff(rest, withTags);
      assert forall i | 1 <= i < |rows| :: rows[i] == rest[i - 1];
      if rest != [] && NewestOf(rest, withTags).Some? {
        var i :| 0 <= i < |rest| && (withTags || !rest[i].tagmsg) && rest[i].ts == NewestOf(rest, withTags).value;
        assert rows[i + 1] == rest[i];
      }
    }
  }

  // ---- inserting in order

  function InsertAt(rows: seq<Row>, at: nat, row: Row): seq<Row>
    requires at <= |rows|
  {
    rows[..at] + [row] + rows[at..]
  }

  /** The record with `row` in its place. */
  function Insert(rows: seq<Row>, row: Row): (r: seq<Row>)
    ensures |r| == |rows| + 1
  {
    if rows == [] || Precedes(row, rows[0]) then [row] + rows else [rows[0]] + Insert(rows[1..], row)
  }

  /** Exactly the row is put in. */
  lemma {:induction false} InsertHolds(rows: seq<Row>, row: Row)
    ensures multiset(Insert(rows, row)) == multiset(rows) + multiset{row}
  {
    if rows != [] && !Precedes(row, rows[0]) {
      InsertHolds(rows[1..], row);
      assert rows == [rows[0]] + rows[1..];
    }
  }

  /** `at` is where `row` goes among `rows`. */
  ghost predicate IsSlot(rows: seq<Row>, at: nat, row: Row) {
    && at <= |rows|
    && (forall i | 0 <= i < at :: Precedes(rows[i], row))
    && (forall i | at <= i < |rows| :: Precedes(row, rows[i]))
  }

  lemma {:induction false} InsertIsAt(rows: seq<Row>, at: nat, row: Row)
    requires IsSlot(rows, at, row)
    ensures Insert(rows, row) == InsertAt(rows, at, row)
  {
    if at == 0 {
      assert InsertAt(rows, at, row) == [row] + rows;
    } else {
      PlacesAreOrdered(PlaceOf(row), PlaceOf(rows[0]));
      assert forall i | 0 <= i < |rows| - 1 :: rows[1..][i] == rows[i + 1];
      InsertIsAt(rows[1..], at - 1, row);
      assert InsertAt(rows, at, row) == [rows[0]] + InsertAt(rows[1..], at - 1, row);
    }
  }

  lemma {:induction false} SlotKeepsOrder(rows: seq<Row>, at: nat, row: Row)
    requires Sorted(rows) && IsSlot(rows, at, row)
    ensures Sorted(InsertAt(rows, at, row))
  {
    var r := InsertAt(rows, at, row);
    forall i, j | 0 <= i < j < |r| ensures Precedes(r[i], r[j]) {
      assert r[i] == if i < at then rows[i] else if i == at then row else rows[i - 1];
      assert r[j] == if j < at then rows[j] else if j == at then row else rows[j - 1];
    }
  }

  // ---- what inserting and shedding do to the running sums

  lemma {:induction false} InsertCounts(rows: seq<Row>, at: nat, row: Row, withTags: bool)
    requires at <= |rows|
    ensures Footprints(InsertAt(rows, at, row)) == Footprints(rows) + row.footprint
    ensures Recount(InsertAt(rows, at, row), withTags)
         == if Admits(withTags, row) then Recount(rows, withTags).Push(row.ts) else Recount(rows, withTags)
    decreases at
  {
    var r := InsertAt(rows, at, row);
    if at == 0 {
      assert r[0] == row && r[1..] == rows;
    } else {
      InsertCounts(rows[1..], at - 1, row, withTags);
      assert r[0] == rows[0] && r[1..] == InsertAt(rows[1..], at - 1, row);
    }
  }

  /** In an ordered ring the newest row of a scope leaves only with the last of
      that scope. */
  lemma {:induction false} ShedCounts(rows: seq<Row>, withTags: bool)
    requires rows != [] && Sorted(rows)
    ensures Admits(withTags, rows[0]) ==> Recount(rows, withTags).held > 0
    ensures Recount(rows[1..], withTags)
         == if Admits(withTags, rows[0]) then Recount(rows, withTags).ExpireOldest() else Recount(rows, withTags)
  {
    if Admits(withTags, rows[0]) {
      var more, ts := rows[1..], rows[0].ts;
      assert forall i | 0 <= i < |more| :: ts <= more[i].ts by {
        assert forall i | 0 < i < |rows| :: Precedes(rows[0], rows[i]);
      }
      NewestIsLater(more, withTags, ts);
      assert NewestOf(rows, withTags) == LaterOf(Some(ts), NewestOf(more, withTags));
    }
  }

  lemma {:induction false} NewestIsLater(rows: seq<Row>, withTags: bool, ts: nat)
    requires forall i | 0 <= i < |rows| :: ts <= rows[i].ts
    ensures Admitted(rows, withTags) == 0 <==> NewestOf(rows, withTags).None?
    ensures NewestOf(rows, withTags).Some? ==> NewestOf(rows, withTags).value >= ts
  {
    if rows != [] {
      NewestIsLater(rows[1..], withTags, ts);
    }
  }

  class HistoryRing {
    var entries: seq<Row>
    var complete: bool
    /** The place of the newest row shed. */
    var shedThrough: Option<Place>
    var text: ScopeNewest
    var textAndTags: ScopeNewest
    var bytes: nat

    /** Whether the ring began as the whole record. */
    ghost const whole: bool
    /** The rows the ring was given and no longer holds. */
    ghost var older: seq<Row>

    /** Every row the ring was given, in order. */
    ghost function Given(): seq<Row>
      reads this
    {
      older + entries
    }

    /** The ring is the newest part of all it was given, with nothing missing
        inside it; it is complete exactly while it is all of it; it remembers
        the newest row before it; and its sums are those of a recount. */
    ghost predicate Valid()
      reads this
    {
      && Sorted(Given())
      && complete == (whole && older == [])
      && shedThrough == (if older == [] then None else Some(PlaceOf(older[|older| - 1])))
      && (entries == [] ==> older == [])
      && Counted(entries, bytes, text, textAndTags)
    }

    constructor (wholeRecord: bool)
      ensures Valid() && Given() == [] && whole == wholeRecord
    {
      entries, complete, shedThrough := [], wholeRecord, None;
      text, textAndTags, bytes := ScopeNewest(0, None), ScopeNewest(0, None), 0;
      whole, older := wholeRecord, [];
    }

    /** Where a row placed no earlier than anything shed goes, searched for from
        the newest end. */
    method SlotFor(row: Row) returns (at: nat)
      requires Sorted(entries) && NewPlace(entries, row)
      ensures IsSlot(entries, at, row)
    {
      at := |entries|;
      while at > 0 && Precedes(row, entries[at - 1])
        invariant at <= |entries|
        invariant forall i | at <= i < |entries| :: Precedes(row, entries[i])
      {
        at := at - 1;
      }
      if at > 0 {
        PlacesAreOrdered(PlaceOf(row), PlaceOf(entries[at - 1]));
        forall i | 0 <= i < at ensures Precedes(entries[i], row) {
          if i < at - 1 {
            BeforeTransitive(PlaceOf(entries[i]), PlaceOf(entries[at - 1]), PlaceOf(row));
          }
        }
      }
    }

    /** Put `row` in its place among the rows held. */
    method TakeIn(row: Row)
      requires Valid() && NewPlace(Given(), row)
      requires shedThrough.Some? ==> !Before(PlaceOf(row), shedThrough.value)
      modifies this
      ensures Valid()
      ensures Given() == Insert(old(Given()), row) && older == old(older) && |entries| == |old(entries)| + 1
    {
      SuffixSorted(older, entries);
      NewPlaceOfSuffix(older, entries, row);
      var at := SlotFor(row);
      TakenIn(older, entries, at, row);
      InsertCounts(entries, at, row, false);
      InsertCounts(entries, at, row, true);
      if !row.tagmsg {
        text := text.Push(row.ts);
      }
      textAndTags := textAndTags.Push(row.ts);
      bytes := bytes + row.footprint;
      entries := InsertAt(entries, at, row);
    }

    /** Drop the oldest row held. */
    method ShedOldest()
      requires Valid() && |entries| > 1
      modifies this
      ensures Valid() && Given() == old(Given())
      ensures older == old(older) + [old(entries)[0]] && entries == old(entries)[1..]
    {
      var oldest := entries[0];
      SuffixSorted(older, entries);
      ShedCounts(entries, false);
      ShedCounts(entries, true);
      ShedOne(older, entries);
      older := older + [oldest];
      entries := entries[1..];
      bytes := bytes - oldest.footprint;
      if !oldest.tagmsg {
        text := text.ExpireOldest();
      }
      textAndTags := textAndTags.ExpireOldest();
      shedThrough := Some(PlaceOf(oldest));
      complete := false;
    }

    /** Take `row` in, or shed it at once when it is placed before what the ring
        has already shed; then shed the oldest rows past either bound, never the
        newest. */
    method Push(row: Row, budget: nat)
      requires Valid() && NewPlace(Given(), row)
      modifies this
      ensures Valid()
      ensures Given() == Insert(old(Given()), row)
      ensures |old(entries)| <= HISTORY_RING_CAP ==> |entries| <= HISTORY_RING_CAP
      ensures if old(shedThrough).Some? && Before(PlaceOf(row), old(shedThrough).value) then entries == old(entries)
              else (bytes <= budget || |entries| == 1) && (older == old(older) || IsOver(older, entries, budget))
    {
      if shedThrough.Some? && Before(PlaceOf(row), shedThrough.value) {
        ShedAtOnce(older, entries, row);
        older := Insert(older, row);
        return;
      }
      TakeIn(row);
      while |entries| > HISTORY_RING_CAP || (bytes > budget && |entries| > 1)
        invariant Valid() && Given() == Insert(old(Given()), row)
        invariant |old(entries)| <= HISTORY_RING_CAP ==> |entries| <= HISTORY_RING_CAP + 1
        invariant older == old(older) || IsOver(older, entries, budget)
        decreases |entries|
      {
        ghost var before := entries;
        ShedOldest();
        assert [older[|older| - 1]] + entries == before;
      }
    }
  }

  /** With the row shed last, the rows held would be over a bound. */
  ghost predicate IsOver(older: seq<Row>, entries: seq<Row>, budget: nat) {
    && older != []
    && var more := [older[|older| - 1]] + entries;
       |more| > HISTORY_RING_CAP || Footprints(more) > budget
  }

  /** The running sums are those of a recount. */
  ghost predicate Counted(rows: seq<Row>, bytes: nat, text: ScopeNewest, textAndTags: ScopeNewest) {
    bytes == Footprints(rows) && text == Recount(rows, false) && textAndTags == Recount(rows, true)
  }

  /** No row has the place of `row`: identifiers are never reused. */
  ghost predicate NewPlace(rows: seq<Row>, row: Row) {
    forall i | 0 <= i < |rows| :: PlaceOf(rows[i]) != PlaceOf(row)
  }

  lemma {:induction false} NewPlaceOfSuffix(older: seq<Row>, rows: seq<Row>, row: Row)
    requires NewPlace(older + rows, row)
    ensures NewPlace(rows, row) && NewPlace(older, row)
  {
    assert forall i | 0 <= i < |rows| :: rows[i] == (older + rows)[|older| + i];
    assert forall i | 0 <= i < |older| :: older[i] == (older + rows)[i];
  }

  /** A row after all of `older` goes among the rows after them. */
  lemma {:induction false} InsertAfter(older: seq<Row>, rows: seq<Row>, row: Row)
    requires forall i | 0 <= i < |older| :: Precedes(older[i], row)
    ensures Insert(older + rows, row) == older + Insert(rows, row)
  {
    if older == [] {
      assert older + rows == rows;
    } else {
      PlacesAreOrdered(PlaceOf(row), PlaceOf(older[0]));
      InsertAfter(older[1..], rows, row);
      assert (older + rows)[1..] == older[1..] + rows;
      assert older == [older[0]] + older[1..];
    }
  }

  /** A row before some of `older` goes among them, and not last. */
  lemma {:induction false} InsertWithin(older: seq<Row>, rows: seq<Row>, row: Row)
    requires older != [] && Precedes(row, older[|older| - 1])
    ensures Insert(older + rows, row) == Insert(older, row) + rows
    ensures Insert(older, row)[|older|] == older[|older| - 1]
  {
    if Precedes(row, older[0]) {
      assert [row] + (older + rows) == [row] + older + rows;
    } else {
      assert |older| > 1 && older[1..][|older| - 2] == older[|older| - 1];
      InsertWithin(older[1..], rows, row);
      assert (older + rows)[1..] == older[1..] + rows;
      assert [older[0]] + (Insert(older[1..], row) + rows) == [older[0]] + Insert(older[1..], row) + rows;
    }
  }

  lemma {:induction false} InsertKeepsOrder(rows: seq<Row>, row: Row)
    requires Sorted(rows) && NewPlace(rows, row)
    ensures Sorted(Insert(rows, row))
  {
    var at := SlotExists(rows, row);
    InsertIsAt(rows, at, row);
    SlotKeepsOrder(rows, at, row);
  }

  lemma {:induction false} SlotExists(rows: seq<Row>, row: Row) returns (at: nat)
    requires Sorted(rows) && NewPlace(rows, row)
    ensures IsSlot(rows, at, row)
    decreases |rows|
  {
    if rows == [] {
      return 0;
    }
    var last := |rows| - 1;
    PlacesAreOrdered(PlaceOf(rows[last]), PlaceOf(row));
    if Precedes(rows[last], row) {
      forall i | 0 <= i < last ensures Precedes(rows[i], row) {
        BeforeTransitive(PlaceOf(rows[i]), PlaceOf(rows[last]), PlaceOf(row));
      }
      return |rows|;
    }
    at := SlotExists(rows[..last], row);
  }

  lemma {:induction false} ShedAtOnce(older: seq<Row>, rows: seq<Row>, row: Row)
    requires Sorted(older + rows) && NewPlace(older + rows, row)
    requires older != [] && Precedes(row, older[|older| - 1])
    ensures Sorted(Insert(older + rows, row)) && Insert(older + rows, row) == Insert(older, row) + rows
    ensures Insert(older, row)[|older|] == older[|older| - 1]
  {
    InsertKeepsOrder(older + rows, row);
    InsertWithin(older, rows, row);
  }

  lemma {:induction false} TakenIn(older: seq<Row>, rows: seq<Row>, at: nat, row: Row)
    requires Sorted(older + rows) && NewPlace(older + rows, row) && IsSlot(rows, at, row)
    requires older != [] ==> !Precedes(row, older[|older| - 1])
    ensures Sorted(Insert(older + rows, row)) && Insert(older + rows, row) == older + InsertAt(rows, at, row)
  {
    InsertKeepsOrder(older + rows, row);
    if older != [] {
      AllOlderPrecede(older, rows, row);
    }
    InsertAfter(older, rows, row);
    InsertIsAt(rows, at, row);
  }

  lemma {:induction false} AllOlderPrecede(older: seq<Row>, rows: seq<Row>, row: Row)
    requires Sorted(older + rows) && NewPlace(older + rows, row)
    requires older != [] && !Precedes(row, older[|older| - 1])
    ensures forall i | 0 <= i < |older| :: Precedes(older[i], row)
  {
    NewPlaceOfSuffix(older, rows, row);
    var last := |older| - 1;
    PlacesAreOrdered(PlaceOf(row), PlaceOf(older[last]));
    forall i | 0 <= i < |older| ensures Precedes(older[i], row) {
      if i < last {
        assert Precedes((older + rows)[i], (older + rows)[last]);
        BeforeTransitive(PlaceOf(older[i]), PlaceOf(older[last]), PlaceOf(row));
      }
    }
  }

  lemma {:induction false} ShedOne(older: seq<Row>, rows: seq<Row>)
    requires rows != []
    ensures (older + [rows[0]]) + rows[1..] == older + rows
  {
  }
}
