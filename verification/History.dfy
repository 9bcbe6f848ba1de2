/**
  A buffer's history as the database holds it: every row in `(ts, msgid)`
  order, and the windows `CHATHISTORY` cuts from it.
 */
module History {
  import opened Wrappers

  /** One message: when it was stamped, its identifier, whether it is a TAGMSG,
      and the bytes it takes in a ring. */
  datatype Row = Row(ts: nat, msgid: string, tagmsg: bool, footprint: nat)

  /** A place in the order. A bare time has no msgid and sits before every row
      stamped with it. */
  datatype Place = Place(ts: nat, msgid: Option<string>)

  function PlaceOf(row: Row): Place {
    Place(row.ts, Some(row.msgid))
  }

  /** Byte order of identifiers (code point order is the byte order of UTF-8). */
  predicate Lower(a: string, b: string) {
    b != [] && (a == [] || a[0] < b[0] || (a[0] == b[0] && Lower(a[1..], b[1..])))
  }

  predicate Before(p: Place, q: Place) {
    || p.ts < q.ts
    || (p.ts == q.ts && q.msgid.Some? && (p.msgid.None? || Lower(p.msgid.value, q.msgid.value)))
  }

  predicate Precedes(a: Row, b: Row) {
    Before(PlaceOf(a), PlaceOf(b))
  }

  lemma {:induction false} LowerTrichotomy(a: string, b: string)
    ensures Lower(a, b) || a == b || Lower(b, a)
    ensures !(Lower(a, b) && Lower(b, a)) && (a == b ==> !Lower(a, b))
  {
    if a != [] && b != [] {
      LowerTrichotomy(a[1..], b[1..]);
      if a[0] == b[0] && a[1..] == b[1..] {
        assert a == [a[0]] + a[1..] == b;
      }
    }
  }

  lemma {:induction false} LowerTransitive(a: string, b: string, c: string)
    requires Lower(a, b) && Lower(b, c)
    ensures Lower(a, c)
  {
    if a != [] && a[0] == b[0] == c[0] {
      LowerTransitive(a[1..], b[1..], c[1..]);
    }
  }

  /** Places are strictly and totally ordered. */
  lemma {:induction false} PlacesAreOrdered(p: Place, q: Place)
    ensures Before(p, q) || p == q || Before(q, p)
    ensures !(Before(p, q) && Before(q, p)) && !Before(p, p)
  {
    if p.msgid.Some? && q.msgid.Some? {
      LowerTrichotomy(p.msgid.value, q.msgid.value);
    }
    if p.msgid.Some? {
      LowerTrichotomy(p.msgid.value, p.msgid.value);
    }
  }

  lemma {:induction false} BeforeTransitive(p: Place, q: Place, r: Place)
    requires Before(p, q) && Before(q, r)
    ensures Before(p, r)
  {
    if p.ts == q.ts == r.ts && p.msgid.Some? {
      LowerTransitive(p.msgid.value, q.msgid.value, r.msgid.value);
    }
  }

  /** The record's order. */
  ghost predicate Sorted(rows: seq<Row>) {
    forall i, j | 0 <= i < j < |rows| :: Precedes(rows[i], rows[j])
  }

  ghost predicate DistinctIds(rows: seq<Row>) {
    forall i, j | 0 <= i < j < |rows| :: rows[i].msgid != rows[j].msgid
  }

  // ---- windows

  datatype Selector = Star | Msgid(id: string) | Timestamp(t: nat)

  datatype Sub = Latest | Earlier | Later | Around | Between

  /** Where the row with this identifier is. */
  function Find(rows: seq<Row>, id: string): (at: Option<nat>)
    ensures at.Some? ==> at.value < |rows| && rows[at.value].msgid == id
    ensures at.None? ==> forall i | 0 <= i < |rows| :: rows[i].msgid != id
  {
    if rows == [] then None
    else if rows[0].msgid == id then Some(0)
    else
      match Find(rows[1..], id)
      case Some(i) => Some(i + 1)
      case None => assert forall i | 1 <= i < |rows| :: rows[i] == rows[1..][i - 1]; None
  }

  /** How many rows are stamped before `t`. */
  function CountBefore(rows: seq<Row>, t: nat): (count: nat)
    ensures count <= |rows|
  {
    if rows == [] then 0 else (if rows[0].ts < t then 1 else 0) + CountBefore(rows[1..], t)
  }

  /** The rows strictly before a selector's position: an upper-exclusive bound. */
  function UpTo(rows: seq<Row>, selector: Selector): (end: Option<nat>)
    ensures end.Some? ==> end.value <= |rows|
  {
    match selector
    case Star => None
    case Msgid(id) => Find(rows, id)
    case Timestamp(t) => Some(CountBefore(rows, t))
  }

  /** The first row strictly after a selector's position: a lower-exclusive bound. */
  function From(rows: seq<Row>, selector: Selector): (start: Option<nat>)
    ensures start.Some? ==> start.value <= |rows|
  {
    match selector
    case Star => None
    case Msgid(id) =>
      var at := Find(rows, id);
      if at.Some? then Some(at.value + 1) else None
    case Timestamp(t) => Some(CountBefore(rows, t + 1))
  }

  function SelectorPlace(rows: seq<Row>, selector: Selector): Option<Place> {
    match selector
    case Star => None
    case Msgid(id) =>
      var at := Find(rows, id);
      if at.Some? then Some(PlaceOf(rows[at.value])) else None
    case Timestamp(t) => Some(Place(t, None))
  }

  function Cut(rows: seq<Row>, from: nat, to: nat): seq<Row> {
    var end := Min(to, |rows|);
    rows[Min(from, end)..end]
  }

  function Newest(rows: seq<Row>, from: nat, to: nat, limit: nat): seq<Row> {
    Cut(rows, Max(Less(to, limit), from), to)
  }

  function Oldest(rows: seq<Row>, from: nat, to: nat, limit: nat): seq<Row> {
    Cut(rows, from, Min(from + limit, to))
  }

  /** Between two bounds, cut from the older one's end or the newer one's. */
  function Span(rows: seq<Row>, start: nat, end: nat, limit: nat, newestFirst: bool): seq<Row> {
    if newestFirst then Newest(rows, start, end, limit) else Oldest(rows, start, end, limit)
  }

  /** The rows `older` before a pivot and `newer` from it on. */
  function Halves(rows: seq<Row>, pivot: nat, older: nat, newer: nat): seq<Row> {
    Cut(rows, Less(pivot, older), pivot + newer)
  }

  /** The page a request cuts from a whole record; none when it names a msgid the
      record does not hold. */
  function Page(rows: seq<Row>, sub: Sub, first: Selector, second: Selector, limit: nat): Option<seq<Row>> {
    match sub
    case Latest =>
      if first.Star? then Some(Newest(rows, 0, |rows|, limit))
      else
        var start := From(rows, first);
        if start.None? then None else Some(Newest(rows, start.value, |rows|, limit))
    case Earlier =>
      var end := UpTo(rows, first);
      if end.None? then None else Some(Newest(rows, 0, end.value, limit))
    case Later =>
      var start := From(rows, first);
      if start.None? then None else Some(Oldest(rows, start.value, |rows|, limit))
    case Around =>
      var pivot := UpTo(rows, first);
      if pivot.None? then None
      else Some(Halves(rows, pivot.value, limit / 2, limit - limit / 2))
    case Between =>
      var p, q := SelectorPlace(rows, first), SelectorPlace(rows, second);
      if p.None? || q.None? then None
      else
        var newestFirst := Before(q.value, p.value);
        var older, newer := if newestFirst then second else first, if newestFirst then first else second;
        var start, end := From(rows, older).value, UpTo(rows, newer).value;
        Some(Span(rows, start, end, limit, newestFirst))
  }

  // ---- what a page is

  /** The row at `i` is after what the selector names. */
  ghost predicate IsAfter(rows: seq<Row>, selector: Selector, i: nat)
    requires i < |rows|
  {
    match selector
    case Star => true
    case Msgid(id) => exists j | 0 <= j < i :: rows[j].msgid == id
    case Timestamp(t) => t < rows[i].ts
  }

  /** The row at `i` is before it. */
  ghost predicate IsBefore(rows: seq<Row>, selector: Selector, i: nat)
    requires i < |rows|
  {
    match selector
    case Star => true
    case Msgid(id) => forall j | 0 <= j <= i :: rows[j].msgid != id
    case Timestamp(t) => rows[i].ts < t
  }

  /** The rows from `start` on are exactly those after it. */
  ghost predicate BeginsAfter(rows: seq<Row>, selector: Selector, start: nat) {
    start <= |rows| && forall i: nat | i < |rows| :: start <= i <==> IsAfter(rows, selector, i)
  }

  /** The rows up to `end` are exactly those before it. */
  ghost predicate EndsBefore(rows: seq<Row>, selector: Selector, end: nat) {
    end <= |rows| && forall i: nat | i < |rows| :: i < end <==> IsBefore(rows, selector, i)
  }

  /** At most `limit` of the rows from `start` to `end`: the newest, or the oldest. */
  function LastOf(rows: seq<Row>, start: nat, end: nat, limit: nat): seq<Row>
    requires end <= |rows|
  {
    if end <= start then [] else if end - start <= limit then rows[start..end] else rows[end - limit..end]
  }

  function FirstOf(rows: seq<Row>, start: nat, end: nat, limit: nat): seq<Row>
    requires end <= |rows|
  {
    if end <= start then [] else if end - start <= limit then rows[start..end] else rows[start..start + limit]
  }

  lemma {:induction false} FindIsFirst(rows: seq<Row>, id: string)
    ensures Find(rows, id).Some? ==> forall j | 0 <= j < Find(rows, id).value :: rows[j].msgid != id
  {
    if rows != [] && rows[0].msgid != id {
      FindIsFirst(rows[1..], id);
      assert forall j | 1 <= j < |rows| :: rows[j] == rows[1..][j - 1];
    }
  }

  lemma {:induction false} StampsBegin(rows: seq<Row>, t: nat)
    requires Sorted(rows)
    ensures forall i | 0 <= i < |rows| :: CountBefore(rows, t) <= i <==> t <= rows[i].ts
  {
    CountIsFirst(rows, t);
    var at := FirstAt(rows, t);
    forall i | at < i < |rows| ensures t <= rows[i].ts {
      assert Precedes(rows[at], rows[i]);
    }
  }

  lemma {:induction false} FromBegins(rows: seq<Row>, selector: Selector)
    requires Sorted(rows) && From(rows, selector).Some?
    ensures BeginsAfter(rows, selector, From(rows, selector).value)
  {
    match selector
    case Msgid(id) => FindIsFirst(rows, id);
    case Timestamp(t) => StampsBegin(rows, t + 1);
  }

  lemma {:induction false} UpToEnds(rows: seq<Row>, selector: Selector)
    requires Sorted(rows) && UpTo(rows, selector).Some?
    ensures EndsBefore(rows, selector, UpTo(rows, selector).value)
  {
    match selector
    case Msgid(id) => FindIsFirst(rows, id);
    case Timestamp(t) => StampsBegin(rows, t);
  }

  lemma {:induction false} KeptOf(rows: seq<Row>, start: nat, end: nat, limit: nat)
    requires end <= |rows|
    ensures Newest(rows, start, end, limit) == LastOf(rows, start, end, limit)
    ensures Oldest(rows, start, end, limit) == FirstOf(rows, start, end, limit)
  {
  }

  /** A page of a record in order: of the rows after what is named, the newest (`LATEST`)
      or the oldest (`AFTER`); of those before it, the newest (`BEFORE`); half of the
      limit before it and the other half from it on (`AROUND`); and of those between
      two, the ones next to the first named (`BETWEEN`). */
  ghost predicate IsPage(rows: seq<Row>, sub: Sub, first: Selector, second: Selector, limit: nat, page: seq<Row>, start: nat, end: nat) {
    start <= |rows| && end <= |rows| &&
    match sub
    case Latest => BeginsAfter(rows, first, start) && end == |rows| && page == LastOf(rows, start, end, limit)
    case Later => BeginsAfter(rows, first, start) && end == |rows| && page == FirstOf(rows, start, end, limit)
    case Earlier => start == 0 && EndsBefore(rows, first, end) && page == LastOf(rows, start, end, limit)
    case Around =>
      start == end && EndsBefore(rows, first, end) && page == LastOf(rows, 0, end, limit / 2) + FirstOf(rows, end, |rows|, limit - limit / 2)
    case Between =>
      if IsPlacedBefore(rows, second, first) then
        BeginsAfter(rows, second, start) && EndsBefore(rows, first, end) && page == LastOf(rows, start, end, limit)
      else BeginsAfter(rows, first, start) && EndsBefore(rows, second, end) && page == FirstOf(rows, start, end, limit)
  }

  /** What one selector names is before what another names. */
  predicate IsPlacedBefore(rows: seq<Row>, a: Selector, b: Selector) {
    && SelectorPlace(rows, a).Some? && SelectorPlace(rows, b).Some?
    && Before(SelectorPlace(rows, a).value, SelectorPlace(rows, b).value)
  }

  lemma {:induction false} PageIs(rows: seq<Row>, sub: Sub, first: Selector, second: Selector, limit: nat) returns (start: nat, end: nat)
    requires Sorted(rows) && Page(rows, sub, first, second, limit).Some?
    ensures IsPage(rows, sub, first, second, limit, Page(rows, sub, first, second, limit).value, start, end)
  {
    start, end := 0, |rows|;
    match sub
    case Latest =>
      if !first.Star? {
        start := From(rows, first).value;
        FromBegins(rows, first);
      }
      KeptOf(rows, start, end, limit);
    case Later =>
      start := From(rows, first).value;
      FromBegins(rows, first);
      KeptOf(rows, start, end, limit);
    case Earlier =>
      end := UpTo(rows, first).value;
      UpToEnds(rows, first);
      KeptOf(rows, start, end, limit);
    case Around =>
      end := UpTo(rows, first).value;
      start := end;
      UpToEnds(rows, first);
      HalvesOf(rows, end, limit / 2, limit - limit / 2);
    case Between => start, end := BetweenIs(rows, first, second, limit);
  }

  lemma {:induction false} HalvesOf(rows: seq<Row>, pivot: nat, older: nat, newer: nat)
    requires pivot <= |rows|
    ensures Halves(rows, pivot, older, newer) == LastOf(rows, 0, pivot, older) + FirstOf(rows, pivot, |rows|, newer)
  {
    var a, b := Less(pivot, older), Min(pivot + newer, |rows|);
    assert rows[a..b] == rows[a..pivot] + rows[pivot..b];
  }

  lemma {:induction false} BetweenIs(rows: seq<Row>, first: Selector, second: Selector, limit: nat) returns (start: nat, end: nat)
    requires Sorted(rows) && Page(rows, Between, first, second, limit).Some?
    ensures IsPage(rows, Between, first, second, limit, Page(rows, Between, first, second, limit).value, start, end)
  {
    var newestFirst := IsPlacedBefore(rows, second, first);
    var older, newer := if newestFirst then second else first, if newestFirst then first else second;
    start, end := From(rows, older).value, UpTo(rows, newer).value;
    FromBegins(rows, older);
    UpToEnds(rows, newer);
    KeptOf(rows, start, end, limit);
  }

  /** There is no page exactly when a place is named by nothing the record holds. */
  lemma {:induction false} NoPageIff(rows: seq<Row>, sub: Sub, first: Selector, second: Selector, limit: nat)
    ensures Page(rows, sub, first, second, limit).None? <==>
              || (first.Star? && !sub.Latest?)
              || (first.Msgid? && forall i | 0 <= i < |rows| :: rows[i].msgid != first.id)
              || (sub.Between? && (second.Star? || (second.Msgid? && forall i | 0 <= i < |rows| :: rows[i].msgid != second.id)))
  {
  }

  // ---- the ring's own arithmetic

  /** The first row that is stamped at `t` or later, or the end. */
  function FirstAt(rows: seq<Row>, t: nat): (at: nat)
    ensures at <= |rows|
    ensures forall i | 0 <= i < at :: rows[i].ts < t
    ensures at < |rows| ==> rows[at].ts >= t
  {
    if rows == [] || rows[0].ts >= t then 0
    else
      var at := FirstAt(rows[1..], t) + 1;
      assert forall i | 1 <= i < at :: rows[i] == rows[1..][i - 1];
      at
  }

  function LowerStart(ring: seq<Row>, selector: Selector): (start: Option<nat>)
    ensures start.Some? ==> start.value <= |ring|
  {
    match selector
    case Star => None
    case Msgid(id) =>
      var at := Find(ring, id);
      if at.Some? then Some(at.value + 1) else None
    case Timestamp(t) => Some(FirstAt(ring, t + 1))
  }

  function UpperEnd(ring: seq<Row>, selector: Selector): (end: Option<nat>)
    ensures end.Some? ==> end.value <= |ring|
  {
    match selector
    case Star => None
    case Msgid(id) => Find(ring, id)
    case Timestamp(t) => Some(FirstAt(ring, t))
  }

  function KeepNewest(ring: seq<Row>, start: nat, end: nat, limit: nat): seq<Row> {
    var to := Min(end, |ring|);
    ring[Max(Less(to, limit), Min(start, to))..to]
  }

  function KeepOldest(ring: seq<Row>, start: nat, end: nat, limit: nat): seq<Row> {
    var to := Min(end, |ring|);
    var from := Min(start, to);
    ring[from..Min(from + limit, to)]
  }

  function KeepSpan(ring: seq<Row>, start: nat, end: nat, limit: nat, newestFirst: bool): seq<Row> {
    if newestFirst then KeepNewest(ring, start, end, limit) else KeepOldest(ring, start, end, limit)
  }

  function KeepHalves(ring: seq<Row>, pivot: nat, older: nat, newer: nat): seq<Row>
    requires pivot <= |ring|
  {
    var start, end := Less(pivot, older), Min(pivot + newer, |ring|);
    ring[start..Max(end, start)]
  }

  /** What a ring answers a request with, and whether it claims to cover it;
      a request it does not cover goes to the database. */
  function RingWindow(ring: seq<Row>, complete: bool, sub: Sub, first: Selector, second: Selector, limit: nat): (seq<Row>, bool) {
    var n := |ring|;
    var miss := ([], complete || first.Star?);
    match sub
    case Latest =>
      if first.Star? then (KeepNewest(ring, 0, n, limit), complete || n >= limit)
      else
        var start := LowerStart(ring, first);
        if start.None? then miss
        else (KeepNewest(ring, start.value, n, limit), complete || start.value > 0 || n >= limit)
    case Earlier =>
      var end := UpperEnd(ring, first);
      if end.None? then miss
      else (KeepNewest(ring, 0, end.value, limit), complete || Less(end.value, limit) > 0)
    case Later =>
      var start := LowerStart(ring, first);
      if start.None? then miss else (KeepOldest(ring, start.value, n, limit), complete || start.value > 0)
    case Around =>
      var pivot := UpperEnd(ring, first);
      if pivot.None? then miss
      else (KeepHalves(ring, pivot.value, limit / 2, limit - limit / 2), complete || Less(pivot.value, limit / 2) > 0)
    case Between =>
      var p, q := SelectorPlace(ring, first), SelectorPlace(ring, second);
      if p.None? || q.None? then ([], complete)
      else
        var newestFirst := Before(q.value, p.value);
        var older, newer := if newestFirst then second else first, if newestFirst then first else second;
        var start, end := LowerStart(ring, older).value, UpperEnd(ring, newer).value;
        (KeepSpan(ring, start, end, limit, newestFirst), complete || start > 0)
  }

  // ---- the ring's arithmetic is the record's

  lemma {:induction false} CountIsFirst(rows: seq<Row>, t: nat)
    requires Sorted(rows)
    ensures CountBefore(rows, t) == FirstAt(rows, t)
  {
    if rows != [] {
      CountIsFirst(rows[1..], t);
      if rows[0].ts >= t {
        NoneBefore(rows, t);
      }
    }
  }

  lemma {:induction false} NoneBefore(rows: seq<Row>, t: nat)
    requires forall i | 0 <= i < |rows| :: rows[i].ts >= t
    ensures CountBefore(rows, t) == 0
  {
    if rows != [] {
      NoneBefore(rows[1..], t);
    }
  }

  lemma {:induction false} BoundsAgree(rows: seq<Row>, selector: Selector)
    requires Sorted(rows)
    ensures LowerStart(rows, selector) == From(rows, selector) && UpperEnd(rows, selector) == UpTo(rows, selector)
  {
    if selector.Timestamp? {
      CountIsFirst(rows, selector.t);
      CountIsFirst(rows, selector.t + 1);
    }
  }

  lemma {:induction false} KeptIsCut(ring: seq<Row>, start: nat, end: nat, limit: nat)
    requires end <= |ring|
    ensures KeepNewest(ring, start, end, limit) == Newest(ring, start, end, limit)
    ensures KeepOldest(ring, start, end, limit) == Oldest(ring, start, end, limit)
  {
  }

  lemma {:induction false} HalvesAreCut(ring: seq<Row>, pivot: nat, older: nat, newer: nat)
    requires pivot <= |ring|
    ensures KeepHalves(ring, pivot, older, newer) == Halves(ring, pivot, older, newer)
  {
  }

  /** `page`, or nothing where there is none. */
  function OrNothing(page: Option<seq<Row>>): seq<Row> {
    if page.Some? then page.value else []
  }

  /** What a ring answers is the page of the rows it holds. */
  lemma {:induction false} RingIsPage(ring: seq<Row>, complete: bool, sub: Sub, first: Selector, second: Selector, limit: nat)
    requires Sorted(ring)
    ensures RingWindow(ring, complete, sub, first, second, limit).0 == OrNothing(Page(ring, sub, first, second, limit))
  {
    BoundsAgree(ring, first);
    match sub
    case Latest => RingIsLatest(ring, complete, first, second, limit);
    case Earlier => RingIsEarlier(ring, complete, first, second, limit);
    case Later => RingIsLater(ring, complete, first, second, limit);
    case Around => RingIsAround(ring, complete, first, second, limit);
    case Between => RingIsBetween(ring, complete, first, second, limit);
  }

  lemma {:induction false} RingIsLatest(ring: seq<Row>, complete: bool, first: Selector, second: Selector, limit: nat)
    requires LowerStart(ring, first) == From(ring, first)
    ensures RingWindow(ring, complete, Latest, first, second, limit).0 == OrNothing(Page(ring, Latest, first, second, limit))
  {
    if first.Star? {
      KeptIsCut(ring, 0, |ring|, limit);
    } else if From(ring, first).Some? {
      KeptIsCut(ring, From(ring, first).value, |ring|, limit);
    }
  }

  lemma {:induction false} RingIsEarlier(ring: seq<Row>, complete: bool, first: Selector, second: Selector, limit: nat)
    requires UpperEnd(ring, first) == UpTo(ring, first)
    ensures RingWindow(ring, complete, Earlier, first, second, limit).0 == OrNothing(Page(ring, Earlier, first, second, limit))
  {
    if UpTo(ring, first).Some? {
      KeptIsCut(ring, 0, UpTo(ring, first).value, limit);
    }
  }

  lemma {:induction false} RingIsLater(ring: seq<Row>, complete: bool, first: Selector, second: Selector, limit: nat)
    requires LowerStart(ring, first) == From(ring, first)
    ensures RingWindow(ring, complete, Later, first, second, limit).0 == OrNothing(Page(ring, Later, first, second, limit))
  {
    if From(ring, first).Some? {
      KeptIsCut(ring, From(ring, first).value, |ring|, limit);
    }
  }

  lemma {:induction false} RingIsAround(ring: seq<Row>, complete: bool, first: Selector, second: Selector, limit: nat)
    requires UpperEnd(ring, first) == UpTo(ring, first)
    ensures RingWindow(ring, complete, Around, first, second, limit).0 == OrNothing(Page(ring, Around, first, second, limit))
  {
    if UpTo(ring, first).Some? {
      HalvesAreCut(ring, UpTo(ring, first).value, limit / 2, limit - limit / 2);
    }
  }

  lemma {:induction false} SpanIsKept(ring: seq<Row>, start: nat, end: nat, limit: nat, newestFirst: bool)
    requires end <= |ring|
    ensures KeepSpan(ring, start, end, limit, newestFirst) == Span(ring, start, end, limit, newestFirst)
  {
    KeptIsCut(ring, start, end, limit);
  }

  lemma {:induction false} RingIsBetween(ring: seq<Row>, complete: bool, first: Selector, second: Selector, limit: nat)
    requires Sorted(ring)
    ensures RingWindow(ring, complete, Between, first, second, limit).0 == OrNothing(Page(ring, Between, first, second, limit))
  {
    BoundsAgree(ring, first);
    BoundsAgree(ring, second);
    var p, q := SelectorPlace(ring, first), SelectorPlace(ring, second);
    if p.Some? && q.Some? {
      if Before(q.value, p.value) {
        SpanIsKept(ring, From(ring, second).value, UpTo(ring, first).value, limit, true);
      } else {
        SpanIsKept(ring, From(ring, first).value, UpTo(ring, second).value, limit, false);
      }
    }
  }

  // ---- a suffix of the record answers for the whole

  lemma {:induction false} FindInSuffix(older: seq<Row>, ring: seq<Row>, id: string)
    requires DistinctIds(older + ring) && Find(ring, id).Some?
    ensures Find(older + ring, id) == Some(|older| + Find(ring, id).value)
  {
    var at, whole := Find(ring, id).value, Find(older + ring, id);
    assert (older + ring)[|older| + at].msgid == id;
  }

  /** A bound that leaves any of the ring behind it leaves all of the older rows
      behind it too; one that leaves none of the ring behind lies at or before
      the ring's front. */
  lemma {:induction false} CountInSuffix(older: seq<Row>, ring: seq<Row>, t: nat)
    requires Sorted(older + ring)
    ensures CountBefore(ring, t) > 0 ==> CountBefore(older + ring, t) == |older| + CountBefore(ring, t)
    ensures CountBefore(ring, t) == 0 ==> CountBefore(older + ring, t) <= |older|
  {
    var rows := older + ring;
    SuffixSorted(older, ring);
    CountIsFirst(rows, t);
    CountIsFirst(ring, t);
    var whole, part := FirstAt(rows, t), FirstAt(ring, t);
    assert forall i | 0 <= i < |ring| :: rows[|older| + i] == ring[i];
    if part > 0 {
      var last := |older| + part - 1;
      assert rows[last] == ring[part - 1];
      assert forall i | 0 <= i <= last :: rows[i].ts < t by {
        assert forall i | 0 <= i < last :: Precedes(rows[i], rows[last]);
      }
    }
  }

  lemma {:induction false} SuffixSorted(older: seq<Row>, ring: seq<Row>)
    requires Sorted(older + ring)
    ensures Sorted(ring)
  {
    forall i, j | 0 <= i < j < |ring| ensures Precedes(ring[i], ring[j]) {
      assert (older + ring)[|older| + i] == ring[i] && (older + ring)[|older| + j] == ring[j];
    }
  }

  lemma {:induction false} CutInSuffix(older: seq<Row>, ring: seq<Row>, from: nat, to: nat)
    ensures Cut(older + ring, |older| + from, |older| + to) == Cut(ring, from, to)
  {
  }

  lemma {:induction false} NewestInSuffix(older: seq<Row>, ring: seq<Row>, from: nat, to: nat, limit: nat)
    ensures Newest(older + ring, |older| + from, |older| + to, limit) == Newest(ring, from, to, limit)
  {
    Shifted(|older|, from, to, limit);
    CutInSuffix(older, ring, Max(Less(to, limit), from), to);
  }

  lemma {:induction false} OldestInSuffix(older: seq<Row>, ring: seq<Row>, from: nat, to: nat, limit: nat)
    ensures Oldest(older + ring, |older| + from, |older| + to, limit) == Oldest(ring, from, to, limit)
  {
    Shifted(|older|, from, to, limit);
    CutInSuffix(older, ring, from, Min(from + limit, to));
  }

  lemma {:induction false} Shifted(shift: nat, from: nat, to: nat, limit: nat)
    ensures Max(Less(shift + to, limit), shift + from) == shift + Max(Less(to, limit), from)
    ensures Min(shift + from + limit, shift + to) == shift + Min(from + limit, to)
  {
  }

  lemma {:induction false} StartInSuffix(older: seq<Row>, ring: seq<Row>, selector: Selector)
    requires Sorted(older + ring) && DistinctIds(older + ring) && From(ring, selector).Some?
    ensures var part, whole := From(ring, selector).value, From(older + ring, selector);
            && whole.Some?
            && (part > 0 ==> whole.value == |older| + part)
            && (part == 0 ==> whole.value <= |older|)
  {
    match selector
    case Msgid(id) => FindInSuffix(older, ring, id);
    case Timestamp(t) => CountInSuffix(older, ring, t + 1);
  }

  lemma {:induction false} EndInSuffix(older: seq<Row>, ring: seq<Row>, selector: Selector)
    requires Sorted(older + ring) && DistinctIds(older + ring) && UpTo(ring, selector).Some?
    ensures var part, whole := UpTo(ring, selector).value, UpTo(older + ring, selector);
            && whole.Some?
            && (part > 0 ==> whole.value == |older| + part)
            && (part == 0 ==> whole.value <= |older|)
  {
    match selector
    case Msgid(id) => FindInSuffix(older, ring, id);
    case Timestamp(t) => CountInSuffix(older, ring, t);
  }

  lemma {:induction false} PlaceInSuffix(older: seq<Row>, ring: seq<Row>, selector: Selector)
    requires DistinctIds(older + ring) && SelectorPlace(ring, selector).Some?
    ensures SelectorPlace(older + ring, selector) == SelectorPlace(ring, selector)
  {
    if selector.Msgid? {
      FindInSuffix(older, ring, selector.id);
    }
  }

  /** Every window a ring claims to cover is the window the whole record gives;
      a ring that is the whole record answers nothing where the record has
      nothing to answer with. */
  lemma {:induction false} CoveredIsExact(older: seq<Row>, ring: seq<Row>, complete: bool, sub: Sub, first: Selector, second: Selector, limit: nat)
    requires Sorted(older + ring) && DistinctIds(older + ring) && (complete ==> older == [])
    requires RingWindow(ring, complete, sub, first, second, limit).1
    ensures RingWindow(ring, complete, sub, first, second, limit).0
         == OrNothing(Page(older + ring, sub, first, second, limit))
  {
    SuffixSorted(older, ring);
    RingIsPage(ring, complete, sub, first, second, limit);
    if complete {
      assert older + ring == ring;
    } else {
      SuffixAnswers(older, ring, sub, first, second, limit);
    }
  }

  /** A suffix of the record cuts every window it covers as the record does. */
  lemma {:induction false} SuffixAnswers(older: seq<Row>, ring: seq<Row>, sub: Sub, first: Selector, second: Selector, limit: nat)
    requires Sorted(older + ring) && DistinctIds(older + ring)
    requires RingWindow(ring, false, sub, first, second, limit).1
    ensures Page(older + ring, sub, first, second, limit) == Page(ring, sub, first, second, limit)
  {
    SuffixSorted(older, ring);
    BoundsAgree(ring, first);
    match sub
    case Latest => LatestAnswers(older, ring, first, second, limit);
    case Earlier => EarlierAnswers(older, ring, first, second, limit);
    case Later => LaterAnswers(older, ring, first, second, limit);
    case Around =>
      if !first.Star? {
        AroundAnswers(older, ring, first, second, limit);
      }
    case Between => BetweenReaches(older, ring, first, second, limit);
  }

  lemma {:induction false} LatestAnswers(older: seq<Row>, ring: seq<Row>, first: Selector, second: Selector, limit: nat)
    requires Sorted(older + ring) && DistinctIds(older + ring) && LowerStart(ring, first) == From(ring, first)
    requires RingWindow(ring, false, Latest, first, second, limit).1
    ensures Page(older + ring, Latest, first, second, limit) == Page(ring, Latest, first, second, limit)
  {
    if first.Star? {
      LatestReaches(older, ring, 0, 0, limit);
    } else {
      StartInSuffix(older, ring, first);
      LatestReaches(older, ring, From(older + ring, first).value, From(ring, first).value, limit);
    }
  }

  lemma {:induction false} EarlierAnswers(older: seq<Row>, ring: seq<Row>, first: Selector, second: Selector, limit: nat)
    requires Sorted(older + ring) && DistinctIds(older + ring) && UpperEnd(ring, first) == UpTo(ring, first)
    requires RingWindow(ring, false, Earlier, first, second, limit).1
    ensures Page(older + ring, Earlier, first, second, limit) == Page(ring, Earlier, first, second, limit)
  {
    if !first.Star? {
      EndInSuffix(older, ring, first);
      EarlierReaches(older, ring, UpTo(ring, first).value, limit);
    }
  }

  lemma {:induction false} LaterAnswers(older: seq<Row>, ring: seq<Row>, first: Selector, second: Selector, limit: nat)
    requires Sorted(older + ring) && DistinctIds(older + ring) && LowerStart(ring, first) == From(ring, first)
    requires RingWindow(ring, false, Later, first, second, limit).1
    ensures Page(older + ring, Later, first, second, limit) == Page(ring, Later, first, second, limit)
  {
    if !first.Star? {
      StartInSuffix(older, ring, first);
      OldestInSuffix(older, ring, From(ring, first).value, |ring|, limit);
    }
  }

  lemma {:induction false} PageAround(rows: seq<Row>, first: Selector, second: Selector, limit: nat)
    requires UpTo(rows, first).Some?
    ensures Page(rows, Around, first, second, limit) == Some(Halves(rows, UpTo(rows, first).value, limit / 2, limit - limit / 2))
  {
  }

  lemma {:induction false} AroundAnswers(older: seq<Row>, ring: seq<Row>, first: Selector, second: Selector, limit: nat)
    requires Sorted(older + ring) && DistinctIds(older + ring)
    requires UpTo(ring, first).Some? && Less(UpTo(ring, first).value, limit / 2) > 0
    ensures Page(older + ring, Around, first, second, limit) == Page(ring, Around, first, second, limit)
  {
    EndInSuffix(older, ring, first);
    PageAround(ring, first, second, limit);
    PageAround(older + ring, first, second, limit);
    HalvesReach(older, ring, UpTo(ring, first).value, limit / 2, limit - limit / 2);
  }

  /** The newest `limit` rows after a position are all in the ring when the
      position is, or when the ring holds that many rows. */
  lemma {:induction false} LatestReaches(older: seq<Row>, ring: seq<Row>, whole: nat, part: nat, limit: nat)
    requires part <= |ring|
    requires (part > 0 && whole == |older| + part) || (|ring| >= limit && whole <= |older| && part == 0)
    ensures Newest(older + ring, whole, |older + ring|, limit) == Newest(ring, part, |ring|, limit)
  {
    CutInSuffix(older, ring, Max(Less(|ring|, limit), part), |ring|);
  }

  lemma {:induction false} EarlierReaches(older: seq<Row>, ring: seq<Row>, part: nat, limit: nat)
    requires part <= |ring| && Less(part, limit) > 0
    ensures Newest(older + ring, 0, |older| + part, limit) == Newest(ring, 0, part, limit)
  {
    CutInSuffix(older, ring, part - limit, part);
  }

  lemma {:induction false} HalvesReach(older: seq<Row>, ring: seq<Row>, part: nat, before: nat, after: nat)
    requires Less(part, before) > 0
    ensures Halves(older + ring, |older| + part, before, after) == Halves(ring, part, before, after)
  {
    CutInSuffix(older, ring, part - before, part + after);
  }

  lemma {:induction false} BetweenReaches(older: seq<Row>, ring: seq<Row>, first: Selector, second: Selector, limit: nat)
    requires Sorted(older + ring) && DistinctIds(older + ring)
    requires RingWindow(ring, false, Between, first, second, limit).1
    ensures Page(older + ring, Between, first, second, limit) == Page(ring, Between, first, second, limit)
  {
    SuffixSorted(older, ring);
    BoundsAgree(ring, first);
    BoundsAgree(ring, second);
    PlaceInSuffix(older, ring, first);
    PlaceInSuffix(older, ring, second);
    if Before(SelectorPlace(ring, second).value, SelectorPlace(ring, first).value) {
      SpanAnswers(older, ring, second, first, limit, true);
    } else {
      SpanAnswers(older, ring, first, second, limit, false);
    }
  }

  lemma {:induction false} SpanAnswers(older: seq<Row>, ring: seq<Row>, from: Selector, to: Selector, limit: nat, newestFirst: bool)
    requires Sorted(older + ring) && DistinctIds(older + ring)
    requires From(ring, from).Some? && UpTo(ring, to).Some? && From(ring, from).value > 0
    ensures From(older + ring, from).Some? && UpTo(older + ring, to).Some?
    ensures Span(older + ring, From(older + ring, from).value, UpTo(older + ring, to).value, limit, newestFirst)
         == Span(ring, From(ring, from).value, UpTo(ring, to).value, limit, newestFirst)
  {
    StartInSuffix(older, ring, from);
    EndInSuffix(older, ring, to);
    SpanReaches(older, ring, From(ring, from).value, From(older + ring, from).value, UpTo(ring, to).value, UpTo(older + ring, to).value,
                limit, newestFirst);
  }

  lemma {:induction false} SpanReaches(older: seq<Row>, ring: seq<Row>, start: nat, wholeStart: nat, end: nat, wholeEnd: nat,
                                       limit: nat, newestFirst: bool)
    requires wholeStart == |older| + start && if end > 0 then wholeEnd == |older| + end else wholeEnd <= |older|
    ensures Span(older + ring, wholeStart, wholeEnd, limit, newestFirst) == Span(ring, start, end, limit, newestFirst)
  {
    if end > 0 && newestFirst {
      NewestInSuffix(older, ring, start, end, limit);
    } else if end > 0 {
      OldestInSuffix(older, ring, start, end, limit);
    } else {
      NothingBetween(older + ring, wholeStart, wholeEnd, limit);
      NothingBetween(ring, start, end, limit);
    }
  }

  lemma {:induction false} NothingBetween(rows: seq<Row>, start: nat, end: nat, limit: nat)
    requires end <= start
    ensures Newest(rows, start, end, limit) == [] == Oldest(rows, start, end, limit)
  {
  }
}
