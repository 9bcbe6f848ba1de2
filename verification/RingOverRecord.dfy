/**
  A ring beside a record that began before it: the database keeps a target's
  rows when its ring is evicted or the server restarts, and the new ring begins
  with nothing.
 */
module RingOverRecord {
  import opened Wrappers
  import opened History
  import opened HotRing

  /** `record` is the rows there were before the ring and those it was given, in
      order. */
  ghost predicate Holds(record: seq<Row>, prior: seq<Row>, given: seq<Row>) {
    && Sorted(record)
    && forall row :: row in record <==> row in prior || row in given
  }

  /** The ring's rows are the newest part of the record. */
  ghost predicate IsNewestPart(record: seq<Row>, entries: seq<Row>) {
    exists front :: record == front + entries
  }

  /** Everything held was stamped after everything there was before. */
  ghost predicate AfterPrior(prior: seq<Row>, entries: seq<Row>) {
    forall p, e | p in prior && e in entries :: Precedes(p, e)
  }

  lemma {:induction false} InOrder(rows: seq<Row>, i: nat, j: nat)
    requires Sorted(rows) && i < j < |rows|
    ensures Precedes(rows[i], rows[j]) && rows[i] != rows[j]
  {
    PlacesAreOrdered(PlaceOf(rows[i]), PlaceOf(rows[j]));
  }

  /** Two ordered sequences of the same rows are the same sequence. */
  lemma {:induction false} OrderIsUnique(a: seq<Row>, b: seq<Row>)
    requires Sorted(a) && Sorted(b) && forall row :: row in a <==> row in b
    ensures a == b
  {
    EmptyIff(a);
    EmptyIff(b);
    if a != [] {
      SameLeast(a, b);
      RestOf(a);
      RestOf(b);
      OrderIsUnique(a[1..], b[1..]);
      assert a == [a[0]] + a[1..] && b == [b[0]] + b[1..];
    }
  }

  lemma {:induction false} EmptyIff(a: seq<Row>)
    ensures a == [] <==> forall row :: row !in a
  {
    if a != [] {
      assert a[0] in a;
    }
  }

  lemma {:induction false} SameLeast(a: seq<Row>, b: seq<Row>)
    requires Sorted(a) && Sorted(b) && a != [] && b != [] && forall row :: row in a <==> row in b
    ensures a[0] == b[0]
  {
    assert a[0] in b && b[0] in a;
    var i :| 0 <= i < |b| && b[i] == a[0];
    var j :| 0 <= j < |a| && a[j] == b[0];
    PlacesAreOrdered(PlaceOf(a[0]), PlaceOf(b[0]));
  }

  lemma {:induction false} RestOf(a: seq<Row>)
    requires Sorted(a) && a != []
    ensures Sorted(a[1..]) && forall row :: row in a[1..] <==> row in a && row != a[0]
  {
    assert a == [a[0]] + a[1..];
    SuffixSorted([a[0]], a[1..]);
    if a[0] in a[1..] {
      var i :| 0 <= i < |a[1..]| && a[1..][i] == a[0];
      InOrder(a, 0, i + 1);
    }
  }

  /** What is held is the newest part of the record exactly when it was all
      stamped after the rows there were before the ring. */
  lemma {:induction false} NewestPartIff(record: seq<Row>, prior: seq<Row>, older: seq<Row>, entries: seq<Row>)
    requires Holds(record, prior, older + entries) && Sorted(older + entries)
    requires forall p | p in prior :: p !in entries
    ensures IsNewestPart(record, entries) <==> AfterPrior(prior, entries)
  {
    if IsNewestPart(record, entries) {
      var front :| record == front + entries;
      forall p, e | p in prior && e in entries ensures Precedes(p, e) {
        assert p in record && p in front;
        var i :| 0 <= i < |front| && front[i] == p;
        var j :| 0 <= j < |entries| && entries[j] == e;
        assert record[i] == p && record[|front| + j] == e;
      }
    }
    if AfterPrior(prior, entries) {
      if entries == [] {
        assert record == record + entries;
      } else {
        HeldAtTheEnd(record, prior, older, entries);
      }
    }
  }

  lemma {:induction false} HeldAtTheEnd(record: seq<Row>, prior: seq<Row>, older: seq<Row>, entries: seq<Row>)
    requires Holds(record, prior, older + entries) && Sorted(older + entries)
    requires entries != [] && AfterPrior(prior, entries)
    ensures IsNewestPart(record, entries)
  {
    var oldest := entries[0];
    assert oldest in record;
    var k :| 0 <= k < |record| && record[k] == oldest;
    assert record == record[..k] + record[k..];
    SuffixSorted(record[..k], record[k..]);
    SuffixSorted(older, entries);
    forall row ensures row in record[k..] <==> row in entries {
      FromOldest(record, k, row);
      if row in entries {
        var j :| 0 <= j < |entries| && entries[j] == row;
        assert row in older + entries;
        if j > 0 {
          InOrder(entries, 0, j);
        }
      } else if row in record {
        OthersPrecede(prior, older, entries, row);
        PlacesAreOrdered(PlaceOf(row), PlaceOf(oldest));
      }
    }
    OrderIsUnique(record[k..], entries);
  }

  /** From the row at `k` on, an ordered record holds that row and what it
      precedes. */
  lemma {:induction false} FromOldest(record: seq<Row>, k: nat, row: Row)
    requires Sorted(record) && k < |record|
    ensures row in record[k..] <==> row in record && (row == record[k] || Precedes(record[k], row))
  {
    if row in record[k..] {
      var j :| 0 <= j < |record[k..]| && record[k..][j] == row;
      assert record[k + j] == row;
    }
    if row in record && (row == record[k] || Precedes(record[k], row)) {
      var j :| 0 <= j < |record| && record[j] == row;
      if j < k {
        InOrder(record, j, k);
        PlacesAreOrdered(PlaceOf(row), PlaceOf(record[k]));
      }
      assert record[k..][j - k] == row;
    }
  }

  lemma {:induction false} OthersPrecede(prior: seq<Row>, older: seq<Row>, entries: seq<Row>, row: Row)
    requires Sorted(older + entries) && entries != [] && AfterPrior(prior, entries)
    requires row in prior || row in older
    ensures Precedes(row, entries[0])
  {
    if row in older && row !in prior {
      var i :| 0 <= i < |older| && older[i] == row;
      assert (older + entries)[i] == row && (older + entries)[|older|] == entries[0];
    }
  }

  /** Every window the ring covers is the record's. */
  ghost predicate AnswersForRecord(record: seq<Row>, entries: seq<Row>) {
    forall sub, first, second, limit | RingWindow(entries, false, sub, first, second, limit).1 ::
      RingWindow(entries, false, sub, first, second, limit).0 == OrNothing(Page(record, sub, first, second, limit))
  }

  /** Every window a ring covers is the record's exactly when all it holds was
      stamped after the rows there were before it. */
  lemma {:induction false} RingAnswersForRecord(record: seq<Row>, prior: seq<Row>, older: seq<Row>, entries: seq<Row>)
    requires Holds(record, prior, older + entries) && Sorted(older + entries) && DistinctIds(record)
    requires forall p | p in prior :: p !in entries
    ensures AnswersForRecord(record, entries) <==> AfterPrior(prior, entries)
  {
    if AfterPrior(prior, entries) {
      NewestPartIff(record, prior, older, entries);
      var front :| record == front + entries;
      forall sub, first, second, limit | RingWindow(entries, false, sub, first, second, limit).1
        ensures RingWindow(entries, false, sub, first, second, limit).0 == OrNothing(Page(record, sub, first, second, limit))
      {
        CoveredIsExact(front, entries, false, sub, first, second, limit);
      }
    } else {
      var p, e :| p in prior && e in entries && !Precedes(p, e);
      SuffixSorted(older, entries);
      NotBeforeOldest(record, entries, p, e);
      MissedAfterOldest(record, entries, p);
    }
  }

  lemma {:induction false} NotBeforeOldest(record: seq<Row>, entries: seq<Row>, p: Row, e: Row)
    requires Sorted(record) && Sorted(entries) && DistinctIds(record)
    requires p in record && p !in entries && e in entries && !Precedes(p, e) && forall row | row in entries :: row in record
    ensures Precedes(entries[0], p)
  {
    var oldest := entries[0];
    assert oldest in record;
    var i :| 0 <= i < |record| && record[i] == oldest;
    var j :| 0 <= j < |record| && record[j] == p;
    var k :| 0 <= k < |entries| && entries[k] == e;
    if j < i {
      InOrder(record, j, i);
      if k > 0 {
        InOrder(entries, 0, k);
        BeforeTransitive(PlaceOf(p), PlaceOf(oldest), PlaceOf(e));
      }
    } else {
      InOrder(record, i, j);
    }
  }

  /** A row held by the record alone, after the oldest in the ring, is missing from
      what the ring says comes after its oldest. */
  lemma {:induction false} MissedAfterOldest(record: seq<Row>, entries: seq<Row>, p: Row)
    requires Sorted(record) && DistinctIds(record) && entries != [] && entries[0] in record
    requires p in record && p !in entries && Precedes(entries[0], p)
    ensures !AnswersForRecord(record, entries)
  {
    var id := entries[0].msgid;
    RingAfterOldest(entries, |record|);
    var k :| 0 <= k < |record| && record[k] == entries[0];
    var j :| 0 <= j < |record| && record[j] == p;
    PlacesAreOrdered(PlaceOf(record[k]), PlaceOf(p));
    RecordAfter(record, k);
    assert k < j && record[k + 1..][j - k - 1] == p;
    assert RingWindow(entries, false, Later, Msgid(id), Star, |record|).0 != OrNothing(Page(record, Later, Msgid(id), Star, |record|));
  }

  lemma {:induction false} RingAfterOldest(entries: seq<Row>, limit: nat)
    requires entries != []
    ensures var page := RingWindow(entries, false, Later, Msgid(entries[0].msgid), Star, limit);
            page.1 && forall row | row in page.0 :: row in entries
  {
    assert Find(entries, entries[0].msgid) == Some(0);
  }

  lemma {:induction false} RecordAfter(record: seq<Row>, k: nat)
    requires DistinctIds(record) && k < |record|
    ensures Page(record, Later, Msgid(record[k].msgid), Star, |record|) == Some(record[k + 1..])
  {
    assert Find(record, record[k].msgid) == Some(k);
    AllAfter(record, k + 1);
  }

  lemma {:induction false} AllAfter(record: seq<Row>, k: nat)
    requires k <= |record|
    ensures Oldest(record, k, |record|, |record|) == record[k..]
  {
  }

  /** A clock stepped back after a restart: the new ring is given a row stamped
      before one the database already holds, takes it in, and covers a window
      with a page the record would not give. */
  lemma {:induction false} AHoleIsPossible()
    ensures var early, held, late := Row(5, "a", false, 0), Row(10, "b", false, 0), Row(12, "c", false, 0);
            && Holds([early, held, late], [held], [early, late])
            && Insert(Insert([], late), early) == [early, late]
            && RingWindow([early, late], false, Sub.Later, Timestamp(5), Star, 10) == ([late], true)
            && Page([early, held, late], Sub.Later, Timestamp(5), Star, 10) == Some([held, late])
  {
    var early, held, late := Row(5, "a", false, 0), Row(10, "b", false, 0), Row(12, "c", false, 0);
    assert Insert([], late) == [late];
    var ring, record := [early, late], [early, held, late];
    assert ring[1..] == [late] && record[1..] == [held, late] && record[1..][1..] == [late];
    assert FirstAt([late], 6) == 0 && FirstAt(ring, 6) == 1;
    assert KeepOldest(ring, 1, 2, 10) == ring[1..2] == [late];
    assert CountBefore([late], 6) == 0 && CountBefore([held, late], 6) == 0 && CountBefore(record, 6) == 1;
    assert Oldest(record, 1, 3, 10) == record[1..3] == [held, late];
  }
}
