/**
  Catching up against a server that answers from one fixed record: the lines a
  join loads are the oldest unread ones, in order, and it says whether they are
  all of them.
 */
module UnreadPaging {
  import opened Wrappers
  import opened JoinHistory
  import History

  type Row = History.Row

  // ---- what the server sends

  /** A line that carries `row` inside the batch. */
  predicate Carries(e: Event, batch: string, row: Row) {
    && e.Line?
    && e.message.command !in {"PING", "FAIL", "BATCH"}
    && e.message.batch == Some(batch)
    && e.message.msgid == Some(row.msgid)
    && e.message.declares.None?
  }

  /** Anything else the server may send meanwhile: pings, lines of other batches
      or of none, unreadable lines. */
  predicate Aside(e: Event, batch: Option<string>) {
    e.Line? ==>
      && !IsHistoryRefusal(e.message) && !Opens(e.message) && !Closes(e.message, batch)
      && !InBatch(e.message, batch) && e.message.declares.None?
  }

  predicate BatchOpens(e: Event) {
    e.Line? && Opens(e.message) && e.message.declares.None?
  }

  predicate BatchCloses(e: Event, batch: Option<string>) {
    e.Line? && Closes(e.message, batch) && e.message.declares.None?
  }

  /** `lines` is a batch of exactly `rows`, among other lines. */
  predicate Serves(lines: seq<Event>, batch: Option<string>, rows: seq<Row>)
    decreases |lines|
  {
    && lines != []
    && if batch.None? then
         if BatchOpens(lines[0]) then Serves(lines[1..], Some(lines[0].message.params[0][1..]), rows)
         else Aside(lines[0], batch) && Serves(lines[1..], batch, rows)
       else if BatchCloses(lines[0], batch) then rows == [] && |lines| == 1
       else if rows != [] && Carries(lines[0], batch.value, rows[0]) then Serves(lines[1..], batch, rows[1..])
       else Aside(lines[0], batch) && Serves(lines[1..], batch, rows)
  }

  function Ids(messages: seq<Message>): seq<Option<string>> {
    seq(|messages|, i requires 0 <= i < |messages| => messages[i].msgid)
  }

  function RowIds(rows: seq<Row>): seq<Option<string>> {
    seq(|rows|, i requires 0 <= i < |rows| => Some(rows[i].msgid))
  }

  function LastAnchor(rows: seq<Row>, last: Option<Anchor>): Option<Anchor> {
    if rows == [] then last else Some(AtMsgid(rows[|rows| - 1].msgid))
  }

  // ---- one page

  /** What reading a served batch leaves behind. */
  predicate PageIs(p: Page, c: Conn, rest: seq<Event>, rows: seq<Row>, lines: nat, last: Option<Anchor>, room: nat) {
    && p.PageDone?
    && p.conn.inputs == rest
    && p.conn.limit == c.limit && p.conn.writes.None?
    && Ids(p.conn.counted) == Ids(c.counted) + RowIds(rows)
    && p.lines == lines
    && p.last == last
    && |p.conn.events| <= |c.events| + room
  }

  /** One more row, and the rest of the page after it. */
  lemma {:induction false} OneRow(before: seq<Message>, m: Message, rows: seq<Row>, last: Option<Anchor>)
    requires rows != [] && m.msgid == Some(rows[0].msgid)
    ensures Ids(before + [m]) + RowIds(rows[1..]) == Ids(before) + RowIds(rows)
    ensures LastAnchor(rows[1..], AnchorAfter(m, last)) == LastAnchor(rows, last)
  {
    assert RowIds(rows) == [m.msgid] + RowIds(rows[1..]);
    assert Ids(before + [m]) == Ids(before) + [m.msgid];
  }

  /** The connection after a line that is not part of the page. */
  function Passed(c: Conn): Conn
    requires c.inputs != []
  {
    var d := c.(inputs := c.inputs[1..]);
    match c.inputs[0]
    case Rejected => d.(events := c.events + [Rejected])
    case Line(m) =>
      if m.command == "PING" then Wrote(d, Pong(if m.params == [] then "" else m.params[0])) else Held(d, m)
  }

  lemma {:induction false} AsidePasses(c: Conn, batch: Option<string>, n: nat, last: Option<Anchor>, cap: nat)
    requires c.inputs != [] && Aside(c.inputs[0], batch) && |c.events| < cap && c.writes.None?
    ensures PageFrom(c, batch, n, last, cap) == PageFrom(Passed(c), batch, n, last, cap)
  {
  }

  lemma {:induction false} RowCounts(c: Conn, batch: string, row: Row, n: nat, last: Option<Anchor>, cap: nat)
    requires c.inputs != [] && Carries(c.inputs[0], batch, row) && |c.events| < cap
    ensures var m := c.inputs[0].message;
      PageFrom(c, Some(batch), n, last, cap)
      == PageFrom(Held(c, m).(inputs := c.inputs[1..], counted := c.counted + [m]), Some(batch), n + 1, AnchorAfter(m, last), cap)
  {
    assert NextEvent(c, cap) == Got(c.(inputs := c.inputs[1..]), c.inputs[0].message);
  }

  lemma {:induction false} ServedPage(c: Conn, lines: seq<Event>, rest: seq<Event>, batch: Option<string>, rows: seq<Row>,
                                      n: nat, last: Option<Anchor>, cap: nat)
    requires c.inputs == lines + rest && Serves(lines, batch, rows) && |c.events| + |lines| <= cap && c.writes.None?
    ensures PageIs(PageFrom(c, batch, n, last, cap), c, rest, rows, n + |rows|, LastAnchor(rows, last), |lines|)
    decreases |lines|
  {
    var e := lines[0];
    assert c.inputs[0] == e && c.inputs[1..] == lines[1..] + rest;
    if batch.None? && BatchOpens(e) {
      ServedPage(c.(inputs := c.inputs[1..]), lines[1..], rest, Some(e.message.params[0][1..]), rows, n, last, cap);
    } else if batch.Some? && BatchCloses(e, batch) {
      assert RowIds(rows) == [] && c.inputs[1..] == rest;
    } else if batch.Some? && rows != [] && Carries(e, batch.value, rows[0]) {
      var m := e.message;
      var d := Held(c, m).(inputs := c.inputs[1..], counted := c.counted + [m]);
      RowCounts(c, batch.value, rows[0], n, last, cap);
      OneRow(c.counted, m, rows, last);
      ServedPage(d, lines[1..], rest, batch, rows[1..], n + 1, AnchorAfter(m, last), cap);
    } else {
      AsidePasses(c, batch, n, last, cap);
      ServedPage(Passed(c), lines[1..], rest, batch, rows, n, last, cap);
    }
  }

  // ---- every page

  /** The selector an anchor is read as. */
  function Selected(a: Anchor): History.Selector {
    match a
    case Marker(ms) => History.Timestamp(ms)
    case AtMsgid(id) => History.Msgid(id)
    case AtTime(_) => History.Star
  }

  /** The rows of the record a page of `size` from `at` holds. */
  function Slice(record: seq<Row>, at: nat, size: nat): seq<Row>
    requires at <= |record|
  {
    record[at..Min(at + size, |record|)]
  }

  /** What a server that keeps `record` for `target`, and gives no more than `limit`
      lines at once, answers to a request. */
  function RowsFor(record: seq<Row>, target: string, limit: Option<nat>, request: Request): seq<Row> {
    match request
    case After(t, anchor, count) =>
      if t == target then History.OrNothing(History.Page(record, History.Later, Selected(anchor), History.Star, AtMost(count, limit))) else []
    case Latest(t, count) =>
      if t == target then History.OrNothing(History.Page(record, History.Latest, History.Star, History.Star, AtMost(count, limit))) else []
    case _ => []
  }

  function AtMost(count: nat, limit: Option<nat>): nat {
    if limit.Some? && limit.value < count then limit.value else count
  }

  /** What a server answers. */
  type Server = Request -> seq<Row>

  /** It answers from the record. */
  ghost predicate Keeps(server: Server, record: seq<Row>, target: string, limit: Option<nat>) {
    forall request: Request :: server(request) == RowsFor(record, target, limit, request)
  }

  function SizeOf(limit: Option<nat>, w: Wish, loaded: nat): nat
    requires w.Unread?
  {
    RequestSize(limit, Min(w.pageLines, Less(w.maxLines, loaded)))
  }

  /** The first `k` lines of `inputs` are the page asked for, with no more around
      it than a join allows. */
  predicate IsPage(inputs: seq<Event>, k: nat, rows: seq<Row>) {
    k <= |inputs| && Serves(inputs[..k], None, rows) && k <= |rows| + MAX_JOIN_BURST_LINES
  }

  /** The server's lines are its answers to `asks`, one after another, `cuts` being how
      many lines each takes. */
  ghost predicate Answers(inputs: seq<Event>, asks: seq<Request>, cuts: seq<nat>, server: Server)
    decreases |asks|
  {
    asks == [] ||
    (cuts != [] && IsPage(inputs, cuts[0], server(asks[0])) && Answers(inputs[cuts[0]..], asks[1..], cuts[1..], server))
  }

  /** The server answers what the client asks for on the way from `before` to `after`. */
  ghost predicate AnswersAsked(before: Conn, after: Conn, cuts: seq<nat>, server: Server) {
    && Asks(before.sent) <= Asks(after.sent)
    && Answers(before.inputs, Asks(after.sent)[|Asks(before.sent)|..], cuts, server)
  }

  /** Every page the client goes on to need is there, the rows from `at` on. */
  ghost predicate AnsweredAt(inputs: seq<Event>, limit: Option<nat>, w: Wish, record: seq<Row>, at: nat, loaded: nat, pages: nat)
    requires w.Unread? && pages <= MAX_HISTORY_PAGES && at <= |record|
    decreases MAX_HISTORY_PAGES - pages, 1, |inputs|
  {
    var size := SizeOf(limit, w, loaded);
    size == 0 || pages == MAX_HISTORY_PAGES ||
    var rows := Slice(record, at, size);
    exists k: nat :: IsPage(inputs, k, rows) && (|rows| < size || AnsweredAtNext(inputs, k, limit, w, record, at + |rows|, loaded + |rows|, pages))
  }

  ghost predicate AnsweredAtNext(inputs: seq<Event>, k: nat, limit: Option<nat>, w: Wish, record: seq<Row>, at: nat, loaded: nat, pages: nat)
    requires w.Unread? && pages < MAX_HISTORY_PAGES && at <= |record|
    decreases MAX_HISTORY_PAGES - pages, 0
  {
    k <= |inputs| && AnsweredAt(inputs[k..], limit, w, record, at, loaded, pages + 1)
  }

  /** Each line's identifier names the place after it. */
  lemma {:induction false} IdNamesPlace(record: seq<Row>, i: nat)
    requires History.DistinctIds(record) && i < |record|
    ensures History.From(record, Selected(AtMsgid(record[i].msgid))) == Some(i + 1)
  {
    var found := History.Find(record, record[i].msgid);
    assert found.Some?;
  }

  lemma {:induction false} HereIsPage(inputs: seq<Event>, k: nat, limit: Option<nat>, w: Wish, record: seq<Row>, rows: seq<Row>, at: nat, loaded: nat, pages: nat)
    requires w.Unread? && pages < MAX_HISTORY_PAGES && at + |rows| <= |record|
    requires rows == Slice(record, at, SizeOf(limit, w, loaded)) && IsPage(inputs, k, rows)
    requires |rows| < SizeOf(limit, w, loaded) || AnsweredAtNext(inputs, k, limit, w, record, at + |rows|, loaded + |rows|, pages)
    ensures AnsweredAt(inputs, limit, w, record, at, loaded, pages)
  {
  }

  /** Asking for what comes after a place the record knows gives the rows from there. */
  lemma {:induction false} AfterGives(server: Server, record: seq<Row>, target: string, limit: Option<nat>, anchor: Anchor, size: nat, at: nat)
    requires Keeps(server, record, target, limit) && History.From(record, Selected(anchor)) == Some(at) && at <= |record|
    requires limit.Some? ==> size <= limit.value
    ensures server(After(target, anchor, size)) == Slice(record, at, size)
  {
    assert server(After(target, anchor, size)) == RowsFor(record, target, limit, After(target, anchor, size));
  }

  /** What a catch-up asks for first. */
  lemma {:induction false} FirstAsk(c: Conn, target: string, w: Wish, anchor: Anchor, loaded: nat, pages: nat)
    requires w.Unread? && pages < MAX_HISTORY_PAGES && 0 < SizeOf(c.limit, w, loaded) && c.writes.None?
    ensures Asks(c.sent) + [After(target, anchor, SizeOf(c.limit, w, loaded))] <= Asks(CaughtUp(c, target, w, anchor, loaded, pages).conn.sent)
  {
    var legs := CatchUpLegs(c, target, w, anchor, loaded, pages);
    assert Requests(legs) == [legs[0].ask] + Requests(legs[1..]);
  }

  /** The next page the server sends is the one the client needs next, and the rest are
      the ones it asks for then. */
  lemma {:induction false} NextAnswer(before: Conn, after: Conn, cuts: seq<nat>, server: Server, request: Request)
    returns (asks: seq<Request>)
    requires AnswersAsked(before, after, cuts, server) && Asks(before.sent) + [request] <= Asks(after.sent)
    ensures asks == Asks(after.sent)[|Asks(before.sent)| + 1..]
    ensures cuts != [] && IsPage(before.inputs, cuts[0], server(request)) && Answers(before.inputs[cuts[0]..], asks, cuts[1..], server)
  {
    var all := Asks(after.sent)[|Asks(before.sent)|..];
    assert all[0] == request by {
      assert (Asks(before.sent) + [request])[|Asks(before.sent)|] == request;
    }
    asks := all[1..];
  }

  /** Where a catch-up against such a server stands. */
  ghost predicate Asking(c: Conn, r: Outcome, target: string, w: Wish, record: seq<Row>, server: Server, anchor: Anchor, at: nat,
                         loaded: nat, pages: nat, cuts: seq<nat>)
  {
    && w.Unread? && c.writes.None? && History.DistinctIds(record) && Keeps(server, record, target, c.limit)
    && at <= |record| && History.From(record, Selected(anchor)) == Some(at)
    && pages <= MAX_HISTORY_PAGES && r == CaughtUp(c, target, w, anchor, loaded, pages)
    && AnswersAsked(c, r.conn, cuts, server)
  }

  /** With a distinct identifier on every line, a server that answers what it is asked
      sends the pages that are needed: each request names the place the page before
      it ended at. */
  lemma {:induction false} AnswersHold(c: Conn, r: Outcome, target: string, w: Wish, record: seq<Row>, server: Server, anchor: Anchor,
                                       at: nat, loaded: nat, pages: nat, cuts: seq<nat>)
    requires Asking(c, r, target, w, record, server, anchor, at, loaded, pages, cuts)
    ensures AnsweredAt(c.inputs, c.limit, w, record, at, loaded, pages)
    decreases MAX_HISTORY_PAGES - pages, 1
  {
    var size := SizeOf(c.limit, w, loaded);
    if size > 0 && pages < MAX_HISTORY_PAGES {
      var rows, next := AnswerHere(c, r, target, w, record, server, anchor, at, loaded, pages, cuts);
      if |rows| == size {
        NextHolds(c, next, r, target, w, record, server, at, rows, loaded, pages, cuts);
      }
      HereIsPage(c.inputs, cuts[0], c.limit, w, record, rows, at, loaded, pages);
    }
  }

  lemma {:induction false} NextHolds(c: Conn, next: Conn, r: Outcome, target: string, w: Wish, record: seq<Row>, server: Server,
                                     at: nat, rows: seq<Row>, loaded: nat, pages: nat, cuts: seq<nat>)
    requires rows != [] && cuts != [] && cuts[0] <= |c.inputs| && next.inputs == c.inputs[cuts[0]..] && next.limit == c.limit
    requires pages < MAX_HISTORY_PAGES
    requires Asking(next, r, target, w, record, server, AtMsgid(rows[|rows| - 1].msgid), at + |rows|, loaded + |rows|, pages + 1, cuts[1..])
    ensures AnsweredAtNext(c.inputs, cuts[0], c.limit, w, record, at + |rows|, loaded + |rows|, pages)
    decreases MAX_HISTORY_PAGES - pages, 0
  {
    AnswersHold(next, r, target, w, record, server, AtMsgid(rows[|rows| - 1].msgid), at + |rows|, loaded + |rows|, pages + 1, cuts[1..]);
  }

  lemma {:induction false} NextIsPlaced(record: seq<Row>, at: nat, rows: seq<Row>)
    requires History.DistinctIds(record) && rows != [] && at + |rows| <= |record| && rows == record[at..at + |rows|]
    ensures History.From(record, Selected(AtMsgid(rows[|rows| - 1].msgid))) == Some(at + |rows|)
  {
    assert rows[|rows| - 1] == record[at + |rows| - 1];
    IdNamesPlace(record, at + |rows| - 1);
  }

  lemma {:induction false} NextIsAsking(c: Conn, next: Conn, r: Outcome, target: string, w: Wish, record: seq<Row>, server: Server,
                                        request: Request, asks: seq<Request>, at: nat, rows: seq<Row>, loaded: nat, pages: nat, cuts: seq<nat>)
    requires w.Unread? && next.writes.None? && next.limit == c.limit && pages < MAX_HISTORY_PAGES
    requires History.DistinctIds(record) && Keeps(server, record, target, c.limit)
    requires rows != [] && at + |rows| <= |record| && rows == record[at..at + |rows|]
    requires r == CaughtUp(next, target, w, AtMsgid(rows[|rows| - 1].msgid), loaded + |rows|, pages + 1)
    requires Asks(next.sent) == Asks(c.sent) + [request] <= Asks(r.conn.sent) && asks == Asks(r.conn.sent)[|Asks(c.sent)| + 1..]
    requires Answers(next.inputs, asks, cuts, server)
    ensures Asking(next, r, target, w, record, server, AtMsgid(rows[|rows| - 1].msgid), at + |rows|, loaded + |rows|, pages + 1, cuts)
  {
    NextIsPlaced(record, at, rows);
  }

  /** The page at hand, as the server sends it. */
  lemma {:induction false} AnswerIs(c: Conn, r: Outcome, target: string, w: Wish, record: seq<Row>, server: Server, anchor: Anchor,
                                    at: nat, loaded: nat, pages: nat, cuts: seq<nat>) returns (rows: seq<Row>, asks: seq<Request>)
    requires Asking(c, r, target, w, record, server, anchor, at, loaded, pages, cuts)
    requires pages < MAX_HISTORY_PAGES && 0 < SizeOf(c.limit, w, loaded)
    ensures rows == Slice(record, at, SizeOf(c.limit, w, loaded)) && cuts != [] && IsPage(c.inputs, cuts[0], rows)
    ensures Asks(c.sent) + [After(target, anchor, SizeOf(c.limit, w, loaded))] <= Asks(r.conn.sent)
    ensures asks == Asks(r.conn.sent)[|Asks(c.sent)| + 1..] && Answers(c.inputs[cuts[0]..], asks, cuts[1..], server)
  {
    var size := SizeOf(c.limit, w, loaded);
    rows := Slice(record, at, size);
    FirstAsk(c, target, w, anchor, loaded, pages);
    AfterGives(server, record, target, c.limit, anchor, size, at);
    asks := NextAnswer(c, r.conn, cuts, server, After(target, anchor, size));
  }

  /** The page at hand, and where it leaves the client. */
  lemma {:induction false} AnswerHere(c: Conn, r: Outcome, target: string, w: Wish, record: seq<Row>, server: Server, anchor: Anchor,
                                      at: nat, loaded: nat, pages: nat, cuts: seq<nat>) returns (rows: seq<Row>, next: Conn)
    requires Asking(c, r, target, w, record, server, anchor, at, loaded, pages, cuts)
    requires pages < MAX_HISTORY_PAGES && 0 < SizeOf(c.limit, w, loaded)
    ensures rows == Slice(record, at, SizeOf(c.limit, w, loaded)) && cuts != [] && IsPage(c.inputs, cuts[0], rows)
    ensures next.inputs == c.inputs[cuts[0]..] && next.limit == c.limit
    ensures |rows| == SizeOf(c.limit, w, loaded) ==>
              Asking(next, r, target, w, record, server, AtMsgid(rows[|rows| - 1].msgid), at + |rows|, loaded + |rows|, pages + 1, cuts[1..])
  {
    var size := SizeOf(c.limit, w, loaded);
    var asks;
    rows, asks := AnswerIs(c, r, target, w, record, server, anchor, at, loaded, pages, cuts);
    next := OnePage(c, target, w, anchor, loaded, pages, rows, cuts[0]);
    if |rows| == size {
      NextIsAsking(c, next, r, target, w, record, server, After(target, anchor, size), asks, at, rows, loaded, pages, cuts[1..]);
    }
  }

  /** The lines of `pages` full pages. */
  function Lines(pages: nat, full: nat): nat {
    if pages == 0 then 0 else full + Lines(pages - 1, full)
  }

  lemma {:induction false} LinesAre(pages: nat, full: nat)
    ensures Lines(pages, full) == pages * full
  {
    if pages > 0 {
      LinesAre(pages - 1, full);
      assert pages * full == full + (pages - 1) * full;
    }
  }

  /** How many unread lines are loaded: all, unless a bound stops it first. */
  function Loaded(unread: nat, w: Wish, limit: Option<nat>): nat
    requires w.Unread?
  {
    Min(unread, Min(w.maxLines, Lines(MAX_HISTORY_PAGES, RequestSize(limit, w.pageLines))))
  }

  function Covered(unread: nat, w: Wish, limit: Option<nat>): Coverage
    requires w.Unread?
  {
    if unread < w.maxLines && unread < Lines(MAX_HISTORY_PAGES, RequestSize(limit, w.pageLines)) then AllUnread else UnreadBeyondLoaded
  }

  /** So far every page was full, except that the last may have been cut to
      `maxLines`. */
  predicate InStep(w: Wish, limit: Option<nat>, loaded: nat, pages: nat)
    requires w.Unread?
  {
    && 0 < w.pageLines
    && (limit.Some? ==> 0 < limit.value)
    && loaded <= w.maxLines
    && loaded <= Lines(pages, RequestSize(limit, w.pageLines))
    && (loaded == Lines(pages, RequestSize(limit, w.pageLines)) || loaded == w.maxLines)
  }

  lemma {:induction false} StepOn(w: Wish, limit: Option<nat>, loaded: nat, pages: nat)
    requires w.Unread? && InStep(w, limit, loaded, pages)
    ensures InStep(w, limit, loaded + SizeOf(limit, w, loaded), pages + 1)
  {
    assert Lines(pages + 1, RequestSize(limit, w.pageLines)) == Lines(pages, RequestSize(limit, w.pageLines)) + RequestSize(limit, w.pageLines);
  }

  lemma {:induction false} StopsRight(w: Wish, limit: Option<nat>, loaded: nat, pages: nat, unread: nat)
    requires w.Unread? && InStep(w, limit, loaded, pages) && loaded <= unread && pages <= MAX_HISTORY_PAGES
    requires SizeOf(limit, w, loaded) == 0 || pages == MAX_HISTORY_PAGES
    ensures Loaded(unread, w, limit) == loaded && Covered(unread, w, limit) == UnreadBeyondLoaded
  {
    MorePages(pages, RequestSize(limit, w.pageLines));
  }

  lemma {:induction false} ShortRight(w: Wish, limit: Option<nat>, loaded: nat, pages: nat, unread: nat)
    requires w.Unread? && InStep(w, limit, loaded, pages) && pages < MAX_HISTORY_PAGES
    requires loaded <= unread < loaded + SizeOf(limit, w, loaded)
    ensures Loaded(unread, w, limit) == unread && Covered(unread, w, limit) == AllUnread
  {
    MorePages(pages + 1, RequestSize(limit, w.pageLines));
  }

  lemma {:induction false} MorePages(pages: nat, full: nat)
    requires pages <= MAX_HISTORY_PAGES
    ensures Lines(pages, full) <= Lines(MAX_HISTORY_PAGES, full)
    decreases MAX_HISTORY_PAGES - pages
  {
    if pages < MAX_HISTORY_PAGES {
      MorePages(pages + 1, full);
    }
  }

  lemma {:induction false} JoinedIds(ids: seq<Option<string>>, record: seq<Row>, a: nat, b: nat, c: nat)
    requires a <= b <= c <= |record|
    ensures ids + RowIds(record[a..b]) + RowIds(record[b..c]) == ids + RowIds(record[a..c])
  {
    assert record[a..c] == record[a..b] + record[b..c];
  }

  /** The lines counted after those in `ids` are the record's from `from` to `to`. */
  predicate CatchesUp(r: Outcome, ids: seq<Option<string>>, record: seq<Row>, from: nat, to: nat, coverage: Coverage) {
    && r.Joined? && !r.refused && r.coverage == coverage
    && from <= to <= |record|
    && Ids(r.conn.counted) == ids + RowIds(record[from..to])
  }

  /** The events held after those of `before` have lines with these identifiers among
      them, in order. */
  ghost predicate Returns(after: Conn, before: Conn, ids: seq<Option<string>>) {
    && before.events <= after.events
    && exists lines: seq<Message> :: Among(lines, after.events[|before.events|..]) && Ids(lines) == ids
  }

  lemma {:induction false} CountedAreReturned(after: Conn, before: Conn, ids: seq<Option<string>>)
    requires Grew(before, after) && Ids(after.counted) == Ids(before.counted) + ids
    ensures Returns(after, before, ids)
  {
    var lines := after.counted[|before.counted|..];
    assert Ids(lines) == Ids(after.counted)[|Ids(before.counted)|..] == ids;
  }

  lemma {:induction false} PageArrives(c: Conn, request: Request, size: nat, k: nat, rows: seq<Row>)
    requires IsPage(c.inputs, k, rows) && |rows| <= size && c.writes.None?
    ensures PageIs(Requested(c, request, size), c, c.inputs[k..], rows, |rows|, LastAnchor(rows, None), k)
  {
    assert c.inputs == c.inputs[..k] + c.inputs[k..];
    ServedPage(Wrote(c, request), c.inputs[..k], c.inputs[k..], None, rows, 0, None, |c.events| + size + MAX_JOIN_BURST_LINES);
  }

  /** What a page leaves to do. */
  lemma {:induction false} OnePage(c: Conn, target: string, w: Wish, anchor: Anchor, loaded: nat, pages: nat, rows: seq<Row>, k: nat) returns (next: Conn)
    requires w.Unread? && pages < MAX_HISTORY_PAGES && 0 < SizeOf(c.limit, w, loaded)
    requires IsPage(c.inputs, k, rows) && |rows| <= SizeOf(c.limit, w, loaded) && c.writes.None?
    ensures next.inputs == c.inputs[k..] && next.limit == c.limit && next.writes.None? && Ids(next.counted) == Ids(c.counted) + RowIds(rows)
    ensures Asks(next.sent) == Asks(c.sent) + [After(target, anchor, SizeOf(c.limit, w, loaded))]
    ensures |rows| < SizeOf(c.limit, w, loaded) ==> CaughtUp(c, target, w, anchor, loaded, pages) == Joined(next, AllUnread, false)
    ensures |rows| == SizeOf(c.limit, w, loaded) ==>
              CaughtUp(c, target, w, anchor, loaded, pages)
              == CaughtUp(next, target, w, AtMsgid(rows[|rows| - 1].msgid), loaded + |rows|, pages + 1)
  {
    var size := SizeOf(c.limit, w, loaded);
    PageArrives(c, After(target, anchor, size), size, k, rows);
    RequestIsRead(c, After(target, anchor, size), size);
    next := Requested(c, After(target, anchor, size), size).conn;
  }

  lemma {:induction false} ThenTheRest(r: Outcome, ids: seq<Option<string>>, more: seq<Option<string>>, record: seq<Row>, a: nat, b: nat, c: nat, coverage: Coverage)
    requires a <= b <= |record| && more == ids + RowIds(record[a..b]) && CatchesUp(r, more, record, b, c, coverage)
    ensures CatchesUp(r, ids, record, a, c, coverage)
  {
    JoinedIds(ids, record, a, b, c);
  }

  /** Where in a record of `total` rows loading page by page from `at` stops, and what
      is said of it. */
  function Stops(w: Wish, limit: Option<nat>, total: nat, at: nat, loaded: nat, pages: nat): (nat, Coverage)
    requires w.Unread? && pages <= MAX_HISTORY_PAGES && at <= total
    decreases MAX_HISTORY_PAGES - pages, total
  {
    var size := SizeOf(limit, w, loaded);
    if size == 0 || pages == MAX_HISTORY_PAGES then (at, UnreadBeyondLoaded)
    else if total < at + size then (total, AllUnread)
    else Stops(w, limit, total, at + size, loaded + size, pages + 1)
  }

  /** Page by page is as many as the bounds allow. */
  lemma {:induction false} StopsAt(w: Wish, limit: Option<nat>, unread: nat, start: nat, loaded: nat, pages: nat)
    requires w.Unread? && pages <= MAX_HISTORY_PAGES && loaded <= unread && InStep(w, limit, loaded, pages)
    ensures Stops(w, limit, start + unread, start + loaded, loaded, pages) == (start + Loaded(unread, w, limit), Covered(unread, w, limit))
    decreases MAX_HISTORY_PAGES - pages
  {
    var size := SizeOf(limit, w, loaded);
    if size == 0 || pages == MAX_HISTORY_PAGES {
      StopsRight(w, limit, loaded, pages, unread);
    } else if unread < loaded + size {
      ShortRight(w, limit, loaded, pages, unread);
    } else {
      StepOn(w, limit, loaded, pages);
      StopsAt(w, limit, unread, start, loaded + size, pages + 1);
    }
  }

  /** Where a join stands before a page: what it comes to, and where it will stop. */
  ghost predicate Paging(r: Outcome, c: Conn, target: string, w: Wish, record: seq<Row>, anchor: Anchor, at: nat, loaded: nat, pages: nat,
                         end: nat, coverage: Coverage)
  {
    && w.Unread? && pages <= MAX_HISTORY_PAGES && at <= |record| && c.writes.None?
    && AnsweredAt(c.inputs, c.limit, w, record, at, loaded, pages)
    && r == CaughtUp(c, target, w, anchor, loaded, pages)
    && Stops(w, c.limit, |record|, at, loaded, pages) == (end, coverage)
  }

  lemma {:induction false} PagesOn(r: Outcome, c: Conn, target: string, w: Wish, record: seq<Row>, anchor: Anchor, at: nat, loaded: nat, pages: nat,
                                   end: nat, coverage: Coverage)
    requires Paging(r, c, target, w, record, anchor, at, loaded, pages, end, coverage)
    ensures CatchesUp(r, Ids(c.counted), record, at, end, coverage)
    decreases MAX_HISTORY_PAGES - pages
  {
    if SizeOf(c.limit, w, loaded) == 0 || pages == MAX_HISTORY_PAGES {
      assert RowIds(record[at..at]) == [];
    } else {
      var next, to, onward := PageHere(r, c, target, w, record, anchor, at, loaded, pages, end, coverage);
      if to < |record| || !(r == Joined(next, AllUnread, false) && end == |record| && coverage == AllUnread) {
        PagesOn(r, next, target, w, record, onward, to, loaded + to - at, pages + 1, end, coverage);
        ThenTheRest(r, Ids(c.counted), Ids(next.counted), record, at, to, end, coverage);
      }
    }
  }

  /** The page at hand is the last, or leaves the rest to do. */
  lemma {:induction false} PageHere(r: Outcome, c: Conn, target: string, w: Wish, record: seq<Row>, anchor: Anchor, at: nat, loaded: nat, pages: nat,
                                    end: nat, coverage: Coverage)
    returns (next: Conn, to: nat, onward: Anchor)
    requires Paging(r, c, target, w, record, anchor, at, loaded, pages, end, coverage)
    requires SizeOf(c.limit, w, loaded) > 0 && pages < MAX_HISTORY_PAGES
    ensures at <= to <= |record| && Ids(next.counted) == Ids(c.counted) + RowIds(record[at..to])
    ensures || (r == Joined(next, AllUnread, false) && to == end == |record| && coverage == AllUnread)
            || Paging(r, next, target, w, record, onward, to, loaded + to - at, pages + 1, end, coverage)
  {
    var size := SizeOf(c.limit, w, loaded);
    var rows := Slice(record, at, size);
    to := at + |rows|;
    var k: nat :| IsPage(c.inputs, k, rows) &&
         (|rows| < size || AnsweredAtNext(c.inputs, k, c.limit, w, record, at + |rows|, loaded + |rows|, pages));
    next := OnePage(c, target, w, anchor, loaded, pages, rows, k);
    onward := if rows == [] then anchor else AtMsgid(rows[|rows| - 1].msgid);
    if |rows| == size {
      NextPaging(r, c, next, k, target, w, record, onward, at, rows, loaded, pages, end, coverage);
    }
  }

  lemma {:induction false} NextPaging(r: Outcome, c: Conn, next: Conn, k: nat, target: string, w: Wish, record: seq<Row>, onward: Anchor, at: nat,
                                      rows: seq<Row>, loaded: nat, pages: nat, end: nat, coverage: Coverage)
    requires w.Unread? && pages < MAX_HISTORY_PAGES && |rows| == SizeOf(c.limit, w, loaded) > 0 && at + |rows| <= |record|
    requires Stops(w, c.limit, |record|, at, loaded, pages) == (end, coverage)
    requires k <= |c.inputs| && next.inputs == c.inputs[k..] && next.limit == c.limit && next.writes.None?
    requires AnsweredAtNext(c.inputs, k, c.limit, w, record, at + |rows|, loaded + |rows|, pages)
    requires r == CaughtUp(next, target, w, onward, loaded + |rows|, pages + 1)
    ensures Paging(r, next, target, w, record, onward, at + |rows|, loaded + |rows|, pages + 1, end, coverage)
  {
  }

  /** What is loaded and what is returned: the record's rows from `from` to `to`. */
  ghost predicate LoadsRows(r: Outcome, c: Conn, record: seq<Row>, from: nat, to: nat, coverage: Coverage) {
    && CatchesUp(r, Ids(c.counted), record, from, to, coverage)
    && Returns(r.conn, c, RowIds(record[from..to]))
  }

  /** From any page on, against a server that answers what it is asked, the rows still
      unread are loaded and returned, as many as the bounds allow. */
  lemma {:induction false} PagesLoad(r: Outcome, c: Conn, target: string, w: Wish, record: seq<Row>, server: Server, anchor: Anchor, start: nat,
                                     loaded: nat, pages: nat, cuts: seq<nat>)
    requires Asking(c, r, target, w, record, server, anchor, start + loaded, loaded, pages, cuts) && InStep(w, c.limit, loaded, pages)
    ensures LoadsRows(r, c, record, start + loaded, start + Loaded(|record| - start, w, c.limit), Covered(|record| - start, w, c.limit))
  {
    AnswersHold(c, r, target, w, record, server, anchor, start + loaded, loaded, pages, cuts);
    StopsAt(w, c.limit, |record| - start, start, loaded, pages);
    PagesReturn(r, c, target, w, record, anchor, start + loaded, loaded, pages,
                start + Loaded(|record| - start, w, c.limit), Covered(|record| - start, w, c.limit));
  }

  lemma {:induction false} PagesReturn(r: Outcome, c: Conn, target: string, w: Wish, record: seq<Row>, anchor: Anchor, at: nat, loaded: nat, pages: nat,
                                       end: nat, coverage: Coverage)
    requires Paging(r, c, target, w, record, anchor, at, loaded, pages, end, coverage)
    ensures LoadsRows(r, c, record, at, end, coverage)
  {
    PagesOn(r, c, target, w, record, anchor, at, loaded, pages, end, coverage);
    CaughtUpGrows(c, target, w, anchor, loaded, pages);
    CountedAreReturned(r.conn, c, RowIds(record[at..end]));
  }

  lemma {:induction false} InStepAtFirst(w: Wish, limit: Option<nat>, none: nat)
    requires w.Unread? && 0 < w.pageLines && (limit.Some? ==> 0 < limit.value) && none == 0
    ensures InStep(w, limit, none, none)
  {
  }

  lemma {:induction false} ReplayCatchesUp(c: Conn, n: Network, target: string, w: Wish, d: Conn, marker: nat, none: nat)
    requires w.Unread? && 0 < w.pageLines && none == 0 && Joining(c, n, target) == BurstDone(d, Some(marker))
    ensures Replayed(c, n, target, w) == CaughtUp(d, target, w, Marker(marker), none, none)
  {
  }

  lemma {:induction false} FromMarker(d: Conn, target: string, w: Wish, server: Server, record: seq<Row>, marker: nat, none: nat, r: Outcome, cuts: seq<nat>)
    requires w.Unread? && 0 < w.pageLines && none == 0 && History.DistinctIds(record) && Keeps(server, record, target, d.limit)
    requires d.writes.None? && (d.limit.Some? ==> 0 < d.limit.value)
    requires r == CaughtUp(d, target, w, Marker(marker), none, none) && AnswersAsked(d, r.conn, cuts, server)
    ensures var start := History.CountBefore(record, marker + 1); var unread := |record| - start;
            LoadsRows(r, d, record, start, start + Loaded(unread, w, d.limit), Covered(unread, w, d.limit))
  {
    var start := History.CountBefore(record, marker + 1);
    InStepAtFirst(w, d.limit, none);
    PagesLoad(r, d, target, w, record, server, Marker(marker), start, none, none, cuts);
  }

  /** The rows from `start` on are exactly those stamped after the marker. */
  predicate UnreadFrom(record: seq<Row>, marker: nat, start: nat) {
    forall i | 0 <= i < |record| :: start <= i <==> marker < record[i].ts
  }

  lemma {:induction false} UnreadBegin(record: seq<Row>, marker: nat)
    requires History.Sorted(record)
    ensures UnreadFrom(record, marker, History.CountBefore(record, marker + 1))
  {
    History.CountIsFirst(record, marker + 1);
    var start := History.FirstAt(record, marker + 1);
    forall i | start < i < |record| ensures marker < record[i].ts {
      assert History.Precedes(record[start], record[i]);
    }
  }

  /** A join against a server that answers what it is asked from one record loads the
      oldest unread lines of it, in order and without a gap, as many as the bounds
      allow; and says they are all of them exactly when fewer are unread than either
      bound. */
  lemma {:induction false} UnreadIsExact(c: Conn, n: Network, target: string, w: Wish, server: Server, record: seq<Row>, d: Conn, marker: nat,
                                         r: Outcome, cuts: seq<nat>)
    requires w.Unread? && 0 < w.pageLines && History.DistinctIds(record) && Keeps(server, record, target, d.limit)
    requires Joining(c, n, target) == BurstDone(d, Some(marker))
    requires d.writes.None? && (d.limit.Some? ==> 0 < d.limit.value)
    requires r == Replayed(c, n, target, w) && AnswersAsked(d, r.conn, cuts, server)
    ensures var start := History.CountBefore(record, marker + 1); var unread := |record| - start;
            LoadsRows(r, d, record, start, start + Loaded(unread, w, d.limit), Covered(unread, w, d.limit))
    ensures History.Sorted(record) ==> UnreadFrom(record, marker, History.CountBefore(record, marker + 1))
  {
    ReplayCatchesUp(c, n, target, w, d, marker, 0);
    FromMarker(d, target, w, server, record, marker, 0, r, cuts);
    if History.Sorted(record) {
      UnreadBegin(record, marker);
    }
  }

  /** How many lines a join asks for when it reads the latest ones. */
  function LatestWish(w: Wish, marker: Option<nat>): nat {
    match w
    case LatestOnly(count) => count
    case Unread(pageLines, _) => if marker.None? then pageLines else 0
  }

  /** And one that reads the latest lines loads the newest of the record. */
  lemma {:induction false} LatestIsExact(c: Conn, n: Network, target: string, w: Wish, server: Server, record: seq<Row>, d: Conn, marker: Option<nat>,
                                         r: Outcome, cuts: seq<nat>)
    requires Keeps(server, record, target, d.limit) && d.writes.None?
    requires Joining(c, n, target) == BurstDone(d, marker) && 0 < LatestWish(w, marker)
    requires r == Replayed(c, n, target, w) && AnswersAsked(d, r.conn, cuts, server)
    ensures var from := Less(|record|, AtMost(LatestWish(w, marker), d.limit));
            LoadsRows(r, d, record, from, |record|, LatestLines)
  {
    var size := RequestSize(d.limit, LatestWish(w, marker));
    var request := Latest(target, size);
    var rows := record[Less(|record|, size)..];
    assert server(request) == RowsFor(record, target, d.limit, request);
    assert rows == History.Newest(record, 0, |record|, size);
    RequestIsRead(d, request, size);
    var _ := NextAnswer(d, r.conn, cuts, server, request);
    PageArrives(d, request, size, cuts[0], rows);
    RequestGrows(d, request, size);
    CountedAreReturned(r.conn, d, RowIds(rows));
  }
}
