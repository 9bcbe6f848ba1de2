/**
  Joining a channel and loading what its user has not read: the burst up to the
  end of names, then `CHATHISTORY` pages after the read marker, under bounds on
  pages, lines and everything the server sends around them.
 */
module JoinHistory {
  import opened Wrappers

  const MAX_HISTORY_PAGES: nat := 10
  const MAX_JOIN_BURST_LINES: nat := 4096

  /** One parsed line, with the tags this exchange reads and what a 005 among
      them declares the `CHATHISTORY` limit to be. */
  datatype Message = Message(
    command: string,
    params: seq<string>,
    batch: Option<string>,
    msgid: Option<string>,
    time: Option<string>,
    declares: Option<Option<nat>>)

  /** A line for an interactive client, or one it cannot act on. */
  datatype Event = Line(message: Message) | Rejected

  /** Where a page continues from. */
  datatype Anchor = Marker(ms: nat) | AtMsgid(id: string) | AtTime(text: string)

  datatype Request = Join(target: string) | After(target: string, anchor: Anchor, count: nat)
                   | Latest(target: string, count: nat) | Pong(token: string)

  datatype Failure = TooMany(limit: nat) | ClosedEarly | WriteFailed | JoinRefused(reply: Message)

  /** The network's naming rules and server-time format. */
  datatype Network = Network(same: (string, string) -> bool, time: string -> Option<nat>)

  /** The connection during a join: what the server has yet to send, the events
      held, the history lines counted among them, the lines sent, how many more can
      be written before a write fails, if one ever does, and the limit the network
      declared. */
  datatype Conn = Conn(inputs: seq<Event>, events: seq<Event>, counted: seq<Message>, sent: seq<Request>, writes: Option<nat>, limit: Option<nat>)

  function Fewer(writes: Option<nat>): Option<nat> {
    if writes.Some? && writes.value > 0 then Some(writes.value - 1) else writes
  }

  function Wrote(c: Conn, request: Request): Conn {
    c.(sent := c.sent + [request], writes := Fewer(c.writes))
  }

  // ---- one event

  datatype Read = Broke(conn: Conn, why: Failure) | Again(conn: Conn) | Got(conn: Conn, message: Message)

  function Adopt(limit: Option<nat>, m: Message): Option<nat> {
    if m.declares.Some? then m.declares.value else limit
  }

  function NextEvent(c: Conn, cap: nat): Read {
    if |c.events| >= cap then Broke(c, TooMany(cap))
    else if c.inputs == [] then Broke(c, ClosedEarly)
    else
      var d := c.(inputs := c.inputs[1..]);
      match c.inputs[0]
      case Rejected => Again(d.(events := c.events + [Rejected]))
      case Line(m) =>
        var e := d.(limit := Adopt(c.limit, m));
        if m.command != "PING" then Got(e, m)
        else if c.writes == Some(0) then Broke(e, WriteFailed)
        else Again(Wrote(e, Pong(if m.params == [] then "" else m.params[0])))
  }

  function Held(c: Conn, m: Message): Conn {
    c.(events := c.events + [Line(m)])
  }

  // ---- the join burst

  predicate IsErrorNumeric(command: string) {
    |command| == 3 && (command[0] == '4' || command[0] == '5') && '0' <= command[1] <= '9' && '0' <= command[2] <= '9'
  }

  function NumericSubject(m: Message): Option<string> {
    var index := if m.command == "341" || m.command == "353" || m.command == "441" || m.command == "443" then 2 else 1;
    if index < |m.params| then Some(m.params[index]) else None
  }

  predicate IsJoinRefusal(n: Network, target: string, m: Message) {
    if m.command == "FAIL" then
      && m.params != []
      && Upper(m.params[0]) == "JOIN"
      && (|m.params| <= 3 || exists i | 2 <= i < |m.params| - 1 :: n.same(m.params[i], target))
    else
      IsErrorNumeric(m.command) && NumericSubject(m).Some? && n.same(NumericSubject(m).value, target)
  }

  predicate IsJoined(n: Network, target: string, m: Message) {
    m.command == "366" && NumericSubject(m).Some? && n.same(NumericSubject(m).value, target)
  }

  const TIMESTAMP: string := "timestamp="

  function MarkerOf(n: Network, m: Message): Option<nat> {
    if |m.params| > 1 && TIMESTAMP <= m.params[1] then n.time(m.params[1][|TIMESTAMP|..]) else None
  }

  function Marked(n: Network, target: string, m: Message, marker: Option<nat>): Option<nat> {
    if m.command == "MARKREAD" && m.params != [] && n.same(m.params[0], target) then MarkerOf(n, m) else marker
  }

  datatype Burst = BurstFailed(conn: Conn, why: Failure) | BurstDone(conn: Conn, marker: Option<nat>)

  function Arrived(c: Conn, n: Network, target: string, marker: Option<nat>): Burst
    decreases |c.inputs|
  {
    match NextEvent(c, MAX_JOIN_BURST_LINES)
    case Broke(d, why) => BurstFailed(d, why)
    case Again(d) => Arrived(d, n, target, marker)
    case Got(d, m) =>
      if IsJoinRefusal(n, target, m) then BurstFailed(d, JoinRefused(m))
      else if IsJoined(n, target, m) then BurstDone(Held(d, m), Marked(n, target, m, marker))
      else Arrived(Held(d, m), n, target, Marked(n, target, m, marker))
  }

  // ---- one page

  /** What one request came to. */
  datatype Page = PageFailed(conn: Conn, why: Failure) | PageRefused(conn: Conn) | PageDone(conn: Conn, lines: nat, last: Option<Anchor>)

  predicate IsHistoryRefusal(m: Message) {
    m.command == "FAIL" && m.params != [] && m.params[0] == "CHATHISTORY"
  }

  predicate Opens(m: Message) {
    m.command == "BATCH" && |m.params| > 1 && m.params[0] != "" && m.params[0][0] == '+' && m.params[1] == "chathistory"
  }

  predicate Closes(m: Message, batch: Option<string>) {
    m.command == "BATCH" && m.params != [] && m.params[0] != "" && m.params[0][0] == '-' && batch == Some(m.params[0][1..])
  }

  /** A line of the batch being read. */
  predicate InBatch(m: Message, batch: Option<string>) {
    batch.Some? && m.batch == batch
  }

  function AnchorAfter(m: Message, last: Option<Anchor>): Option<Anchor> {
    if m.msgid.Some? then Some(AtMsgid(m.msgid.value))
    else if m.time.Some? then Some(AtTime(m.time.value))
    else last
  }

  function PageFrom(c: Conn, batch: Option<string>, lines: nat, last: Option<Anchor>, cap: nat): Page
    decreases |c.inputs|
  {
    match NextEvent(c, cap)
    case Broke(d, why) => PageFailed(d, why)
    case Again(d) => PageFrom(d, batch, lines, last, cap)
    case Got(d, m) =>
      if IsHistoryRefusal(m) then PageRefused(d)
      else if Opens(m) then PageFrom(d, Some(m.params[0][1..]), lines, last, cap)
      else if Closes(m, batch) then PageDone(d, lines, last)
      else if InBatch(m, batch) then
        PageFrom(Held(d, m).(counted := d.counted + [m]), batch, lines + 1, AnchorAfter(m, last), cap)
      else PageFrom(Held(d, m), batch, lines, last, cap)
  }

  function Requested(c: Conn, request: Request, count: nat): Page {
    if c.writes == Some(0) then PageFailed(c, WriteFailed)
    else PageFrom(Wrote(c, request), None, 0, None, |c.events| + count + MAX_JOIN_BURST_LINES)
  }

  // ---- all of it

  datatype Coverage = NoHistory | LatestLines | AllUnread | UnreadBeyondLoaded

  datatype Wish = LatestOnly(count: nat) | Unread(pageLines: nat, maxLines: nat)

  datatype Outcome = Failed(conn: Conn, why: Failure) | Joined(conn: Conn, coverage: Coverage, refused: bool)

  /** `wanted` lines, or what the server takes in one request. */
  function RequestSize(limit: Option<nat>, wanted: nat): nat {
    if limit.Some? then Min(wanted, limit.value) else wanted
  }

  function LatestLoaded(c: Conn, target: string, count: nat): Outcome {
    var size := RequestSize(c.limit, count);
    match Requested(c, Latest(target, size), size)
    case PageFailed(d, why) => Failed(d, why)
    case PageRefused(d) => Joined(d, NoHistory, true)
    case PageDone(d, _, _) => Joined(d, LatestLines, false)
  }

  /** How many lines the next page asks for. */
  function NextSize(c: Conn, w: Wish, loaded: nat): nat
    requires w.Unread?
  {
    RequestSize(c.limit, Min(w.pageLines, Less(w.maxLines, loaded)))
  }

  function CaughtUp(c: Conn, target: string, w: Wish, anchor: Anchor, loaded: nat, pages: nat): Outcome
    requires w.Unread? && pages <= MAX_HISTORY_PAGES
    decreases MAX_HISTORY_PAGES - pages, |c.inputs|
  {
    var size := NextSize(c, w, loaded);
    if size == 0 || pages == MAX_HISTORY_PAGES then Joined(c, UnreadBeyondLoaded, false)
    else
      match Requested(c, After(target, anchor, size), size)
      case PageFailed(d, why) => Failed(d, why)
      case PageRefused(d) => Joined(d, UnreadBeyondLoaded, true)
      case PageDone(d, lines, last) =>
        if lines < size then Joined(d, AllUnread, false)
        else if last.None? then Joined(d, UnreadBeyondLoaded, false)
        else CaughtUp(d, target, w, last.value, loaded + lines, pages + 1)
  }

  /** The join, and what the server sends of it. */
  function Joining(c: Conn, n: Network, target: string): Burst {
    if c.writes == Some(0) then BurstFailed(c, WriteFailed) else Arrived(Wrote(c, Join(target)), n, target, None)
  }

  function Replayed(c: Conn, n: Network, target: string, w: Wish): Outcome {
    match Joining(c, n, target)
    case BurstFailed(d, why) => Failed(d, why)
    case BurstDone(d, marker) =>
      match w
      case LatestOnly(count) => if count == 0 then Joined(d, NoHistory, false) else LatestLoaded(d, target, count)
      case Unread(pageLines, _) =>
        if pageLines == 0 then Joined(d, NoHistory, false)
        else if marker.None? then LatestLoaded(d, target, pageLines)
        else CaughtUp(d, target, w, Marker(marker.value), 0, 0)
  }

  // ---- how much a server can make a join hold

  lemma {:induction false} BurstHolds(c: Conn, n: Network, target: string, marker: Option<nat>)
    requires |c.events| <= MAX_JOIN_BURST_LINES
    ensures |Arrived(c, n, target, marker).conn.events| <= MAX_JOIN_BURST_LINES
    decreases |c.inputs|
  {
    match NextEvent(c, MAX_JOIN_BURST_LINES)
    case Broke(_, _) =>
    case Again(d) => BurstHolds(d, n, target, marker);
    case Got(d, m) =>
      if !IsJoinRefusal(n, target, m) && !IsJoined(n, target, m) {
        BurstHolds(Held(d, m), n, target, Marked(n, target, m, marker));
      }
  }

  lemma {:induction false} PageHolds(c: Conn, batch: Option<string>, lines: nat, last: Option<Anchor>, cap: nat)
    requires |c.events| <= cap
    ensures |PageFrom(c, batch, lines, last, cap).conn.events| <= cap
    decreases |c.inputs|
  {
    match NextEvent(c, cap)
    case Broke(_, _) =>
    case Again(d) => PageHolds(d, batch, lines, last, cap);
    case Got(d, m) =>
      if IsHistoryRefusal(m) || (!Opens(m) && Closes(m, batch)) {
      } else if Opens(m) {
        PageHolds(d, Some(m.params[0][1..]), lines, last, cap);
      } else if InBatch(m, batch) {
        PageHolds(Held(d, m).(counted := d.counted + [m]), batch, lines + 1, AnchorAfter(m, last), cap);
      } else {
        PageHolds(Held(d, m), batch, lines, last, cap);
      }
  }

  /** The sizes asked for never sum past `maxLines`, because a page that goes on
      to another held at least what was asked of it. */
  lemma {:induction false} CaughtUpHolds(c: Conn, target: string, w: Wish, anchor: Anchor, loaded: nat, pages: nat)
    requires w.Unread? && pages <= MAX_HISTORY_PAGES
    ensures |CaughtUp(c, target, w, anchor, loaded, pages).conn.events|
         <= |c.events| + (MAX_HISTORY_PAGES - pages) * MAX_JOIN_BURST_LINES + Less(w.maxLines, loaded)
    decreases MAX_HISTORY_PAGES - pages
  {
    var size := NextSize(c, w, loaded);
    if size > 0 && pages < MAX_HISTORY_PAGES {
      var page := Requested(c, After(target, anchor, size), size);
      RequestHolds(c, After(target, anchor, size), size);
      if page.PageDone? && page.lines >= size && page.last.Some? {
        CaughtUpHolds(page.conn, target, w, page.last.value, loaded + page.lines, pages + 1);
      }
    }
  }

  lemma {:induction false} RequestHolds(c: Conn, request: Request, count: nat)
    ensures |Requested(c, request, count).conn.events| <= |c.events| + count + MAX_JOIN_BURST_LINES
  {
    PageHolds(Wrote(c, request), None, 0, None, |c.events| + count + MAX_JOIN_BURST_LINES);
  }

  /** The burst of a join names how far its user has read. */
  predicate IsMarked(c: Conn, n: Network, target: string) {
    Joining(c, n, target).BurstDone? && Joining(c, n, target).marker.Some?
  }

  /** Whatever the server sends, a join that catches up from a marker holds at most
      eleven bursts and `maxLines` events, and one that reads the latest lines two
      bursts and as many as it asked for. */
  lemma {:induction false} JoinHolds(c: Conn, n: Network, target: string, w: Wish)
    requires c.events == []
    ensures w.LatestOnly? ==> |Replayed(c, n, target, w).conn.events| <= 2 * MAX_JOIN_BURST_LINES + w.count
    ensures w.Unread? && IsMarked(c, n, target) ==>
              |Replayed(c, n, target, w).conn.events| <= 11 * MAX_JOIN_BURST_LINES + w.maxLines
    ensures w.Unread? && !IsMarked(c, n, target) ==>
              |Replayed(c, n, target, w).conn.events| <= 2 * MAX_JOIN_BURST_LINES + w.pageLines
  {
    BurstHolds(Wrote(c, Join(target)), n, target, None);
    match Joining(c, n, target)
    case BurstFailed(_, _) =>
    case BurstDone(d, marker) =>
      if w.LatestOnly? {
        LatestHolds(d, target, w.count);
      } else if marker.None? {
        LatestHolds(d, target, w.pageLines);
      } else {
        CaughtUpHolds(d, target, w, Marker(marker.value), 0, 0);
      }
  }

  lemma {:induction false} LatestHolds(c: Conn, target: string, count: nat)
    ensures |LatestLoaded(c, target, count).conn.events| <= |c.events| + count + MAX_JOIN_BURST_LINES
  {
    var size := RequestSize(c.limit, count);
    RequestHolds(c, Latest(target, size), size);
  }

  // ---- what is counted is held

  /** The lines of `counted` are among `events`, in order. */
  predicate Among(counted: seq<Message>, events: seq<Event>)
    decreases |events|
  {
    counted == [] ||
    (&& events != []
     && var last, rest := |counted| - 1, events[..|events| - 1];
        || (events[|events| - 1] == Line(counted[last]) && Among(counted[..last], rest))
        || Among(counted, rest))
  }

  /** One more event, counted or not. */
  lemma {:induction false} AmongMore(counted: seq<Message>, events: seq<Event>, e: Event)
    requires Among(counted, events)
    ensures Among(counted, events + [e])
    ensures e.Line? ==> Among(counted + [e.message], events + [e])
  {
    assert (events + [e])[..|events|] == events;
    if e.Line? {
      assert (counted + [e.message])[..|counted|] == counted;
    }
  }

  lemma {:induction false} AmongBoth(a: seq<Message>, x: seq<Event>, b: seq<Message>, y: seq<Event>)
    requires Among(a, x) && Among(b, y)
    ensures Among(a + b, x + y)
    decreases |y|
  {
    if y == [] {
      assert a + b == a && x + y == x;
    } else {
      var e, rest := y[|y| - 1], y[..|y| - 1];
      if b != [] && e == Line(b[|b| - 1]) && Among(b[..|b| - 1], rest) {
        var front := b[..|b| - 1];
        AmongBoth(a, x, front, rest);
        AmongMore(a + front, x + rest, e);
        Ending(a, b);
      } else {
        AmongBoth(a, x, b, rest);
        AmongMore(a + b, x + rest, e);
      }
      Ending(x, y);
    }
  }

  lemma {:induction false} Ending<T>(x: seq<T>, y: seq<T>)
    requires y != []
    ensures x + y[..|y| - 1] + [y[|y| - 1]] == x + y
  {
  }

  /** `d` came of `c` by holding more events, those counted among them in order. */
  ghost predicate Grew(c: Conn, d: Conn) {
    && c.events <= d.events && c.counted <= d.counted
    && Among(d.counted[|c.counted|..], d.events[|c.events|..])
  }

  lemma {:induction false} GrewNothing(c: Conn, d: Conn)
    requires d.events == c.events && d.counted == c.counted
    ensures Grew(c, d)
  {
    assert d.counted[|c.counted|..] == [];
  }

  lemma {:induction false} GrewOne(c: Conn, d: Conn, e: Event, counts: bool)
    requires d.events == c.events + [e] && (counts ==> e.Line?)
    requires d.counted == if counts then c.counted + [e.message] else c.counted
    ensures Grew(c, d)
  {
    AmongMore([], [], e);
    assert [] + [e] == [e] && d.events[|c.events|..] == [e];
    if counts {
      assert [] + [e.message] == [e.message] && d.counted[|c.counted|..] == [e.message];
    } else {
      assert d.counted[|c.counted|..] == [];
    }
  }

  lemma {:induction false} GrewOn(a: Conn, b: Conn, c: Conn)
    requires Grew(a, b) && Grew(b, c)
    ensures Grew(a, c)
  {
    AmongBoth(b.counted[|a.counted|..], b.events[|a.events|..], c.counted[|b.counted|..], c.events[|b.events|..]);
    Onward(a.events, b.events, c.events);
    Onward(a.counted, b.counted, c.counted);
  }

  lemma {:induction false} Onward<T>(a: seq<T>, b: seq<T>, c: seq<T>)
    requires a <= b <= c
    ensures b[|a|..] + c[|b|..] == c[|a|..]
  {
  }

  lemma {:induction false} EventGrows(c: Conn, cap: nat)
    ensures Grew(c, NextEvent(c, cap).conn)
  {
    var d := NextEvent(c, cap).conn;
    if d.events == c.events {
      GrewNothing(c, d);
    } else {
      GrewOne(c, d, Rejected, false);
    }
  }

  lemma {:induction false} BurstGrows(c: Conn, n: Network, target: string, marker: Option<nat>)
    ensures Grew(c, Arrived(c, n, target, marker).conn)
    decreases |c.inputs|
  {
    var read := NextEvent(c, MAX_JOIN_BURST_LINES);
    EventGrows(c, MAX_JOIN_BURST_LINES);
    if read.Again? {
      BurstGrows(read.conn, n, target, marker);
      GrewOn(c, read.conn, Arrived(c, n, target, marker).conn);
    } else if read.Got? && !IsJoinRefusal(n, target, read.message) {
      var held := Held(read.conn, read.message);
      GrewOne(read.conn, held, Line(read.message), false);
      GrewOn(c, read.conn, held);
      if !IsJoined(n, target, read.message) {
        BurstGrows(held, n, target, Marked(n, target, read.message, marker));
        GrewOn(c, held, Arrived(c, n, target, marker).conn);
      }
    }
  }

  lemma {:induction false} PageGrows(c: Conn, batch: Option<string>, lines: nat, last: Option<Anchor>, cap: nat)
    ensures Grew(c, PageFrom(c, batch, lines, last, cap).conn)
    decreases |c.inputs|
  {
    var read := NextEvent(c, cap);
    EventGrows(c, cap);
    if read.Again? {
      PageGrows(read.conn, batch, lines, last, cap);
      GrewOn(c, read.conn, PageFrom(c, batch, lines, last, cap).conn);
    } else if read.Got? && !IsHistoryRefusal(read.message) {
      if Opens(read.message) {
        PageGrows(read.conn, Some(read.message.params[0][1..]), lines, last, cap);
        GrewOn(c, read.conn, PageFrom(c, batch, lines, last, cap).conn);
      } else if !Closes(read.message, batch) {
        LineGrows(c, read.conn, read.message, batch, lines, last, cap);
      }
    }
  }

  /** A line held, counted when it is of the batch, and the rest of the page. */
  lemma {:induction false} LineGrows(c: Conn, d: Conn, m: Message, batch: Option<string>, lines: nat, last: Option<Anchor>, cap: nat)
    requires NextEvent(c, cap) == Got(d, m) && Grew(c, d) && !IsHistoryRefusal(m) && !Opens(m) && !Closes(m, batch)
    ensures Grew(c, PageFrom(c, batch, lines, last, cap).conn)
    decreases |c.inputs|, 0
  {
    var counts := InBatch(m, batch);
    var held := if counts then Held(d, m).(counted := d.counted + [m]) else Held(d, m);
    GrewOne(d, held, Line(m), counts);
    GrewOn(c, d, held);
    PageGrows(held, batch, if counts then lines + 1 else lines, if counts then AnchorAfter(m, last) else last, cap);
    GrewOn(c, held, PageFrom(c, batch, lines, last, cap).conn);
  }

  lemma {:induction false} RequestGrows(c: Conn, request: Request, count: nat)
    ensures Grew(c, Requested(c, request, count).conn)
  {
    GrewNothing(c, c);
    if c.writes != Some(0) {
      var wrote := Wrote(c, request);
      GrewNothing(c, wrote);
      PageGrows(wrote, None, 0, None, |c.events| + count + MAX_JOIN_BURST_LINES);
      GrewOn(c, wrote, Requested(c, request, count).conn);
    }
  }

  lemma {:induction false} CaughtUpGrows(c: Conn, target: string, w: Wish, anchor: Anchor, loaded: nat, pages: nat)
    requires w.Unread? && pages <= MAX_HISTORY_PAGES
    ensures Grew(c, CaughtUp(c, target, w, anchor, loaded, pages).conn)
    decreases MAX_HISTORY_PAGES - pages
  {
    var size := NextSize(c, w, loaded);
    GrewNothing(c, c);
    if size > 0 && pages < MAX_HISTORY_PAGES {
      var page := Requested(c, After(target, anchor, size), size);
      RequestGrows(c, After(target, anchor, size), size);
      if page.PageDone? && page.lines >= size && page.last.Some? {
        CaughtUpGrows(page.conn, target, w, page.last.value, loaded + page.lines, pages + 1);
        GrewOn(c, page.conn, CaughtUp(c, target, w, anchor, loaded, pages).conn);
      }
    }
  }

  /** Whatever the server sends, what a join returns holds every history line it
      counted, in order, and begins with what it held before. */
  lemma {:induction false} JoinGrows(c: Conn, n: Network, target: string, w: Wish)
    ensures Grew(c, Replayed(c, n, target, w).conn)
  {
    GrewNothing(c, c);
    if c.writes != Some(0) {
      var wrote := Wrote(c, Join(target));
      GrewNothing(c, wrote);
      BurstGrows(wrote, n, target, None);
      GrewOn(c, wrote, Joining(c, n, target).conn);
      if Joining(c, n, target).BurstDone? {
        AfterBurstGrows(c, n, target, w);
        GrewOn(c, Joining(c, n, target).conn, Replayed(c, n, target, w).conn);
      }
    }
  }

  lemma {:induction false} AfterBurstGrows(c: Conn, n: Network, target: string, w: Wish)
    requires Joining(c, n, target).BurstDone?
    ensures Grew(Joining(c, n, target).conn, Replayed(c, n, target, w).conn)
  {
    var d, marker := Joining(c, n, target).conn, Joining(c, n, target).marker;
    GrewNothing(d, d);
    var count := if w.LatestOnly? then w.count else w.pageLines;
    var size := RequestSize(d.limit, count);
    RequestGrows(d, Latest(target, size), size);
    if w.Unread? && marker.Some? {
      CaughtUpGrows(d, target, w, Marker(marker.value), 0, 0);
    }
  }

  // ---- what is asked for, page by page

  /** The lines sent, pongs aside. */
  function Asks(sent: seq<Request>): seq<Request> {
    if sent == [] then []
    else Asks(sent[..|sent| - 1]) + if sent[|sent| - 1].Pong? then [] else [sent[|sent| - 1]]
  }

  lemma {:induction false} OneAsk(c: Conn, request: Request)
    ensures Asks(Wrote(c, request).sent) == Asks(c.sent) + if request.Pong? then [] else [request]
  {
    assert (c.sent + [request])[..|c.sent|] == c.sent;
  }

  lemma {:induction false} EventAsks(c: Conn, cap: nat)
    ensures Asks(NextEvent(c, cap).conn.sent) == Asks(c.sent) && NextEvent(c, cap).conn.counted == c.counted
  {
    var d := NextEvent(c, cap).conn;
    if d.sent != c.sent {
      OneAsk(c, d.sent[|c.sent|]);
    }
  }

  lemma {:induction false} BurstAsks(c: Conn, n: Network, target: string, marker: Option<nat>)
    ensures Asks(Arrived(c, n, target, marker).conn.sent) == Asks(c.sent) && Arrived(c, n, target, marker).conn.counted == c.counted
    decreases |c.inputs|
  {
    EventAsks(c, MAX_JOIN_BURST_LINES);
    match NextEvent(c, MAX_JOIN_BURST_LINES)
    case Broke(_, _) =>
    case Again(d) => BurstAsks(d, n, target, marker);
    case Got(d, m) =>
      if !IsJoinRefusal(n, target, m) && !IsJoined(n, target, m) {
        BurstAsks(Held(d, m), n, target, Marked(n, target, m, marker));
      }
  }

  /** The place after the last of `lines` that names one. */
  function AnchorOf(lines: seq<Message>): Option<Anchor> {
    if lines == [] then None
    else
      var m := lines[|lines| - 1];
      if m.msgid.Some? then Some(AtMsgid(m.msgid.value))
      else if m.time.Some? then Some(AtTime(m.time.value))
      else AnchorOf(lines[..|lines| - 1])
  }

  /** A page asks for nothing more; what it counts is what it says it read, and it ends
      at the last line that names a place. */
  predicate IsRead(p: Page, c: Conn, before: seq<Message>) {
    && Asks(p.conn.sent) == Asks(c.sent)
    && |before| <= |p.conn.counted| && p.conn.counted[..|before|] == before
    && (p.PageDone? ==> p.lines == |p.conn.counted| - |before| && p.last == AnchorOf(p.conn.counted[|before|..]))
  }

  lemma {:induction false} PageIsRead(c: Conn, batch: Option<string>, lines: nat, last: Option<Anchor>, cap: nat, before: seq<Message>)
    requires |c.counted| == |before| + lines && c.counted[..|before|] == before && last == AnchorOf(c.counted[|before|..])
    ensures IsRead(PageFrom(c, batch, lines, last, cap), c, before)
    decreases |c.inputs|
  {
    EventAsks(c, cap);
    match NextEvent(c, cap)
    case Broke(_, _) =>
    case Again(d) => PageIsRead(d, batch, lines, last, cap, before);
    case Got(d, m) =>
      if IsHistoryRefusal(m) || (!Opens(m) && Closes(m, batch)) {
      } else if Opens(m) {
        PageIsRead(d, Some(m.params[0][1..]), lines, last, cap, before);
      } else if InBatch(m, batch) {
        OneMoreCounted(d.counted, m, before);
        PageIsRead(Held(d, m).(counted := d.counted + [m]), batch, lines + 1, AnchorAfter(m, last), cap, before);
      } else {
        PageIsRead(Held(d, m), batch, lines, last, cap, before);
      }
  }

  lemma {:induction false} OneMoreCounted(counted: seq<Message>, m: Message, before: seq<Message>)
    requires |before| <= |counted| && counted[..|before|] == before
    ensures (counted + [m])[..|before|] == before
    ensures AnchorOf((counted + [m])[|before|..]) == AnchorAfter(m, AnchorOf(counted[|before|..]))
  {
    var lines := counted[|before|..];
    assert (counted + [m])[|before|..] == lines + [m] && (lines + [m])[..|lines|] == lines;
  }

  /** One page of a catch-up: what was asked, and the lines it counted. */
  datatype Leg = Leg(ask: Request, lines: seq<Message>)

  /** The lines a leg added. */
  function Added(c: Conn, d: Conn): seq<Message> {
    if |c.counted| <= |d.counted| then d.counted[|c.counted|..] else []
  }

  lemma {:induction false} StartIsRead(c: Conn, cap: nat, none: nat)
    requires none == 0
    ensures IsRead(PageFrom(c, None, none, None, cap), c, c.counted)
  {
    assert c.counted[..|c.counted|] == c.counted && c.counted[|c.counted|..] == [];
    PageIsRead(c, None, none, None, cap, c.counted);
  }

  /** What one request leaves: itself asked, and the lines it counted. */
  predicate IsAsked(p: Page, c: Conn, request: Request) {
    && Asks(p.conn.sent) == Asks(c.sent) + [request]
    && p.conn.counted == c.counted + Added(c, p.conn)
    && (p.PageDone? ==> p.lines == |Added(c, p.conn)| && p.last == AnchorOf(Added(c, p.conn)))
  }

  lemma {:induction false} RequestIsRead(c: Conn, request: Request, count: nat)
    requires !request.Pong? && c.writes != Some(0)
    ensures IsAsked(Requested(c, request, count), c, request)
  {
    OneAsk(c, request);
    StartIsRead(Wrote(c, request), |c.events| + count + MAX_JOIN_BURST_LINES, 0);
    ReadIsAsked(Requested(c, request, count), Wrote(c, request), c, request);
  }

  lemma {:induction false} ReadIsAsked(p: Page, wrote: Conn, c: Conn, request: Request)
    requires IsRead(p, wrote, wrote.counted) && wrote.counted == c.counted && Asks(wrote.sent) == Asks(c.sent) + [request]
    ensures IsAsked(p, c, request)
  {
    assert p.conn.counted == c.counted + p.conn.counted[|c.counted|..];
  }

  function Requests(legs: seq<Leg>): seq<Request> {
    if legs == [] then [] else [legs[0].ask] + Requests(legs[1..])
  }

  function Loads(legs: seq<Leg>): seq<Message> {
    if legs == [] then [] else legs[0].lines + Loads(legs[1..])
  }

  /** Each leg asks for what comes after `anchor`, within both bounds, and only one
      that was as long as it asked is followed: from the last place it named. */
  predicate Follow(legs: seq<Leg>, target: string, w: Wish, anchor: Anchor, loaded: nat)
    requires w.Unread?
    decreases |legs|
  {
    legs == [] ||
    var leg := legs[0];
    && leg.ask.After? && leg.ask.target == target && leg.ask.anchor == anchor
    && 0 < leg.ask.count <= Min(w.pageLines, Less(w.maxLines, loaded))
    && (|legs| > 1 ==>
         && leg.ask.count <= |leg.lines| && AnchorOf(leg.lines).Some?
         && Follow(legs[1..], target, w, AnchorOf(leg.lines).value, loaded + |leg.lines|))
  }

  /** The last leg was shorter than it asked. */
  predicate EndsShort(legs: seq<Leg>) {
    legs != [] && legs[|legs| - 1].ask.After? && |legs[|legs| - 1].lines| < legs[|legs| - 1].ask.count
  }

  /** What a catch-up did: `legs`, and it says that all is loaded exactly when the last
      was short and nothing was refused. */
  ghost predicate IsCatchUp(r: Outcome, c: Conn, target: string, w: Wish, anchor: Anchor, loaded: nat, legs: seq<Leg>)
    requires w.Unread?
  {
    && Asks(r.conn.sent) == Asks(c.sent) + Requests(legs)
    && r.conn.counted == c.counted + Loads(legs)
    && Follow(legs, target, w, anchor, loaded)
    && (r.Joined? ==> r.coverage == if EndsShort(legs) && !r.refused then AllUnread else UnreadBeyondLoaded)
  }

  /** Whatever the server sends: a catch-up's requests, pongs aside, are one page after
      another, each after the last place the page before it named, and `AllUnread` is
      said only after a page shorter than was asked. */
  lemma {:induction false} CatchUpLegs(c: Conn, target: string, w: Wish, anchor: Anchor, loaded: nat, pages: nat) returns (legs: seq<Leg>)
    requires w.Unread? && pages <= MAX_HISTORY_PAGES
    ensures |legs| <= MAX_HISTORY_PAGES - pages
    ensures 0 < NextSize(c, w, loaded) && pages < MAX_HISTORY_PAGES && c.writes != Some(0) ==>
              legs != [] && legs[0].ask == After(target, anchor, NextSize(c, w, loaded))
    ensures IsCatchUp(CaughtUp(c, target, w, anchor, loaded, pages), c, target, w, anchor, loaded, legs)
    decreases MAX_HISTORY_PAGES - pages
  {
    legs := [];
    NoLegs(c);
    var size := NextSize(c, w, loaded);
    if size > 0 && pages < MAX_HISTORY_PAGES && c.writes != Some(0) {
      var request := After(target, anchor, size);
      var page := Requested(c, request, size);
      var leg := Leg(request, Added(c, page.conn));
      RequestIsRead(c, request, size);
      legs := [leg];
      OneLeg(leg);
      if page.PageDone? && page.lines >= size && page.last.Some? {
        var more := CatchUpLegs(page.conn, target, w, page.last.value, loaded + page.lines, pages + 1);
        legs := [leg] + more;
        LegBefore(CaughtUp(c, target, w, anchor, loaded, pages), c, page.conn, target, w, anchor, loaded, leg, more);
      }
    }
  }

  lemma {:induction false} NoLegs(c: Conn)
    ensures Asks(c.sent) == Asks(c.sent) + Requests([]) && c.counted == c.counted + Loads([])
  {
  }

  lemma {:induction false} OneLeg(leg: Leg)
    ensures Requests([leg]) == [leg.ask] && Loads([leg]) == leg.lines
  {
    assert [leg][1..] == [] && leg.lines + [] == leg.lines;
  }

  lemma {:induction false} LegBefore(r: Outcome, c: Conn, d: Conn, target: string, w: Wish, anchor: Anchor, loaded: nat, leg: Leg, more: seq<Leg>)
    requires w.Unread? && leg.ask.After? && leg.ask.target == target && leg.ask.anchor == anchor
    requires 0 < leg.ask.count <= Min(w.pageLines, Less(w.maxLines, loaded))
    requires leg.ask.count <= |leg.lines| && AnchorOf(leg.lines).Some?
    requires Asks(d.sent) == Asks(c.sent) + [leg.ask] && d.counted == c.counted + leg.lines
    requires IsCatchUp(r, d, target, w, AnchorOf(leg.lines).value, loaded + |leg.lines|, more)
    ensures IsCatchUp(r, c, target, w, anchor, loaded, [leg] + more)
  {
    var legs := [leg] + more;
    assert legs[1..] == more;
    Glue(Asks(c.sent), [leg.ask], Requests(more));
    Glue(c.counted, leg.lines, Loads(more));
  }

  /** A join from a read marker: after the join itself, the legs of a catch-up from it. */
  lemma {:induction false} JoinLegs(c: Conn, n: Network, target: string, w: Wish) returns (legs: seq<Leg>)
    requires w.Unread? && 0 < w.pageLines && IsMarked(c, n, target)
    ensures |legs| <= MAX_HISTORY_PAGES
    ensures var marker := Marker(Joining(c, n, target).marker.value); var r := Replayed(c, n, target, w);
            && Asks(r.conn.sent) == Asks(c.sent) + [Join(target)] + Requests(legs)
            && r.conn.counted == c.counted + Loads(legs)
            && Follow(legs, target, w, marker, 0)
            && (r.Joined? ==> r.coverage == if EndsShort(legs) && !r.refused then AllUnread else UnreadBeyondLoaded)
  {
    OneAsk(c, Join(target));
    BurstAsks(Wrote(c, Join(target)), n, target, None);
    var d := Joining(c, n, target);
    legs := CatchUpLegs(d.conn, target, w, Marker(d.marker.value), 0, 0);
  }

  // ---- what is read, and what is answered at once

  /** The tokens of the pongs sent. */
  function Pongs(sent: seq<Request>): seq<string> {
    if sent == [] then []
    else Pongs(sent[..|sent| - 1]) + if sent[|sent| - 1].Pong? then [sent[|sent| - 1].token] else []
  }

  predicate IsPing(e: Event) {
    e.Line? && e.message.command == "PING"
  }

  /** The tokens of the pings among lines. */
  function Tokens(read: seq<Event>): seq<string> {
    if read == [] then []
    else
      var e := read[|read| - 1];
      Tokens(read[..|read| - 1]) + if !IsPing(e) then [] else if e.message.params == [] then [""] else [e.message.params[0]]
  }

  lemma {:induction false} TokensOfBoth(a: seq<Event>, b: seq<Event>)
    ensures Tokens(a + b) == Tokens(a) + Tokens(b)
  {
    if b == [] {
      assert a + b == a;
    } else {
      TokensOfBoth(a, b[..|b| - 1]);
      assert (a + b)[..|a + b| - 1] == a + b[..|b| - 1];
    }
  }

  /** `read` was read, and every ping of it answered with its own token, in order, and
      nothing else was. */
  predicate Answering(c: Conn, read: seq<Event>, d: Conn) {
    c.inputs == read + d.inputs && Pongs(d.sent) == Pongs(c.sent) + Tokens(read)
  }

  lemma {:induction false} AnsweringOn(a: Conn, x: seq<Event>, b: Conn, y: seq<Event>, c: Conn)
    requires Answering(a, x, b) && Answering(b, y, c)
    ensures Answering(a, x + y, c)
  {
    TokensOfBoth(x, y);
    Glue(x, y, c.inputs);
    Glue(Pongs(a.sent), Tokens(x), Tokens(y));
  }

  lemma {:induction false} AnsweringNothing(c: Conn, d: Conn)
    requires d.inputs == c.inputs && Pongs(d.sent) == Pongs(c.sent)
    ensures Answering(c, [], d)
  {
    assert [] + c.inputs == c.inputs && Pongs(c.sent) + [] == Pongs(c.sent);
  }

  lemma {:induction false} OnePong(c: Conn, request: Request)
    ensures Pongs(Wrote(c, request).sent) == Pongs(c.sent) + if request.Pong? then [request.token] else []
  {
    assert (c.sent + [request])[..|c.sent|] == c.sent;
  }

  lemma {:induction false} OneToken(e: Event)
    ensures Tokens([e]) == if !IsPing(e) then [] else if e.message.params == [] then [""] else [e.message.params[0]]
  {
    assert [e][..0] == [];
  }

  lemma {:induction false} EventAnswers(c: Conn, cap: nat) returns (read: seq<Event>)
    ensures var next := NextEvent(c, cap); (next.Broke? && next.why.WriteFailed?) || Answering(c, read, next.conn)
    ensures !NextEvent(c, cap).Broke? ==> c.inputs != [] && read == [c.inputs[0]]
  {
    var next := NextEvent(c, cap);
    read := [];
    if next.conn.inputs == c.inputs {
      AnsweringNothing(c, next.conn);
    } else {
      var e := c.inputs[0];
      read := [e];
      OneToken(e);
      if IsPing(e) {
        OnePong(c, Pong(if e.message.params == [] then "" else e.message.params[0]));
      }
    }
  }

  // ---- the burst

  /** What is read of a burst ends with the first end of names for the channel and holds
      no refusal; all of it but pings is held; and the marker is the one the last
      `MARKREAD` for the channel gives. */
  predicate IsBurst(b: Burst, c: Conn, read: seq<Event>, n: Network, target: string, marker: Option<nat>) {
    b.BurstDone? ==>
      && read != [] && read[|read| - 1].Line? && IsJoined(n, target, read[|read| - 1].message)
      && (forall i | 0 <= i < |read| - 1 && read[i].Line? :: !IsJoined(n, target, read[i].message))
      && (forall i | 0 <= i < |read| && read[i].Line? :: !IsJoinRefusal(n, target, read[i].message))
      && b.conn.events == c.events + Unpinged(read)
      && b.marker == LastMarker(n, target, read, marker)
  }

  /** All lines but pings. */
  function Unpinged(read: seq<Event>): seq<Event> {
    if read == [] then [] else (if IsPing(read[0]) then [] else [read[0]]) + Unpinged(read[1..])
  }

  /** What the last `MARKREAD` for the channel says, or `marker` without one. */
  function LastMarker(n: Network, target: string, read: seq<Event>, marker: Option<nat>): Option<nat> {
    if read == [] then marker
    else
      var e := read[|read| - 1];
      if e.Line? && e.message.command == "MARKREAD" && e.message.params != [] && n.same(e.message.params[0], target) then MarkerOf(n, e.message)
      else LastMarker(n, target, read[..|read| - 1], marker)
  }

  function MarkedBy(n: Network, target: string, e: Event, marker: Option<nat>): Option<nat> {
    if e.Line? then Marked(n, target, e.message, marker) else marker
  }

  lemma {:induction false} MarkerOn(n: Network, target: string, e: Event, read: seq<Event>, marker: Option<nat>)
    ensures LastMarker(n, target, [e] + read, marker) == LastMarker(n, target, read, MarkedBy(n, target, e, marker))
  {
    if read == [] {
      assert [e] + read == [e] && [e][..0] == [];
    } else {
      MarkerOn(n, target, e, read[..|read| - 1], marker);
      assert ([e] + read)[..|read|] == [e] + read[..|read| - 1];
    }
  }

  /** Whatever the server sends: a burst that ends well is read to its end, as above. */
  lemma {:induction false} BurstReads(c: Conn, n: Network, target: string, marker: Option<nat>) returns (read: seq<Event>)
    ensures var b := Arrived(c, n, target, marker); (b.BurstFailed? && b.why.WriteFailed?) || Answering(c, read, b.conn)
    ensures IsBurst(Arrived(c, n, target, marker), c, read, n, target, marker)
    decreases |c.inputs|
  {
    read := EventAnswers(c, MAX_JOIN_BURST_LINES);
    var next := NextEvent(c, MAX_JOIN_BURST_LINES);
    if next.Again? {
      var more := BurstReads(next.conn, n, target, marker);
      read := BurstOn(c, c.inputs[0], next.conn, more, n, target, marker, Arrived(next.conn, n, target, marker));
    } else if next.Got? && !IsJoinRefusal(n, target, next.message) {
      var held, marked := Held(next.conn, next.message), Marked(n, target, next.message, marker);
      if IsJoined(n, target, next.message) {
        LastOfBurst(c, c.inputs[0], held, n, target, marker);
      } else {
        var more := BurstReads(held, n, target, marked);
        read := BurstOn(c, c.inputs[0], held, more, n, target, marker, Arrived(held, n, target, marked));
      }
    }
  }

  lemma {:induction false} LastOfBurst(c: Conn, e: Event, d: Conn, n: Network, target: string, marker: Option<nat>)
    requires e.Line? && !IsPing(e) && IsJoined(n, target, e.message) && !IsJoinRefusal(n, target, e.message)
    requires d.events == c.events + [e]
    ensures IsBurst(BurstDone(d, Marked(n, target, e.message, marker)), c, [e], n, target, marker)
  {
    assert [e][1..] == [] && [e] + [] == [e];
    MarkerOn(n, target, e, [], marker);
  }

  lemma {:induction false} BurstOn(c: Conn, e: Event, d: Conn, more: seq<Event>, n: Network, target: string, marker: Option<nat>, b: Burst)
    returns (read: seq<Event>)
    requires e.Line? ==> !IsJoinRefusal(n, target, e.message) && !IsJoined(n, target, e.message)
    requires d.events == c.events + (if IsPing(e) then [] else [e]) && Answering(c, [e], d)
    requires IsBurst(b, d, more, n, target, MarkedBy(n, target, e, marker))
    requires (b.BurstFailed? && b.why.WriteFailed?) || Answering(d, more, b.conn)
    ensures (b.BurstFailed? && b.why.WriteFailed?) || Answering(c, read, b.conn)
    ensures IsBurst(b, c, read, n, target, marker)
  {
    read := [e] + more;
    if Answering(d, more, b.conn) {
      AnsweringOn(c, [e], d, more, b.conn);
    }
    if b.BurstDone? {
      BurstFrom(c, e, d, more, n, target, marker, b);
    }
  }

  lemma {:induction false} BurstFrom(c: Conn, e: Event, d: Conn, more: seq<Event>, n: Network, target: string, marker: Option<nat>, b: Burst)
    requires e.Line? ==> !IsJoinRefusal(n, target, e.message) && !IsJoined(n, target, e.message)
    requires d.events == c.events + (if IsPing(e) then [] else [e]) && b.BurstDone?
    requires IsBurst(b, d, more, n, target, MarkedBy(n, target, e, marker))
    ensures IsBurst(b, c, [e] + more, n, target, marker)
  {
    var read := [e] + more;
    assert read[1..] == more;
    MarkerOn(n, target, e, more, marker);
    Glue(c.events, if IsPing(e) then [] else [e], Unpinged(more));
    assert forall i | 0 < i < |read| :: read[i] == more[i - 1];
  }

  // ---- the pings of a whole join

  lemma {:induction false} PageAnswers(c: Conn, batch: Option<string>, lines: nat, last: Option<Anchor>, cap: nat) returns (read: seq<Event>)
    ensures var p := PageFrom(c, batch, lines, last, cap); (p.PageFailed? && p.why.WriteFailed?) || Answering(c, read, p.conn)
    decreases |c.inputs|
  {
    read := EventAnswers(c, cap);
    var next, p := NextEvent(c, cap), PageFrom(c, batch, lines, last, cap);
    if next.Again? {
      var more := PageAnswers(next.conn, batch, lines, last, cap);
      read := AnsweringThen(c, read, next.conn, more, p.conn);
    } else if next.Got? && !IsHistoryRefusal(next.message) {
      var d, m := next.conn, next.message;
      if Opens(m) {
        var more := PageAnswers(d, Some(m.params[0][1..]), lines, last, cap);
        read := AnsweringThen(c, read, d, more, p.conn);
      } else if !Closes(m, batch) {
        var counts := InBatch(m, batch);
        var held := if counts then Held(d, m).(counted := d.counted + [m]) else Held(d, m);
        var more := PageAnswers(held, batch, if counts then lines + 1 else lines, if counts then AnchorAfter(m, last) else last, cap);
        read := AnsweringThen(c, read, held, more, p.conn);
      }
    }
  }

  lemma {:induction false} AnsweringThen(a: Conn, x: seq<Event>, b: Conn, y: seq<Event>, c: Conn) returns (read: seq<Event>)
    requires Answering(a, x, b)
    ensures Answering(b, y, c) ==> Answering(a, read, c)
  {
    read := x + y;
    if Answering(b, y, c) {
      AnsweringOn(a, x, b, y, c);
    }
  }

  lemma {:induction false} RequestAnswers(c: Conn, request: Request, count: nat) returns (read: seq<Event>)
    requires !request.Pong?
    ensures var p := Requested(c, request, count); (p.PageFailed? && p.why.WriteFailed?) || Answering(c, read, p.conn)
  {
    read := [];
    if c.writes != Some(0) {
      var wrote := Wrote(c, request);
      OnePong(c, request);
      AnsweringNothing(c, wrote);
      var more := PageAnswers(wrote, None, 0, None, |c.events| + count + MAX_JOIN_BURST_LINES);
      read := AnsweringThen(c, [], wrote, more, Requested(c, request, count).conn);
    }
  }

  /** Until a write fails. */
  predicate Replied(r: Outcome, read: seq<Event>, c: Conn) {
    (r.Failed? && r.why.WriteFailed?) || Answering(c, read, r.conn)
  }

  lemma {:induction false} RepliedThen(r: Outcome, c: Conn, x: seq<Event>, d: Conn, y: seq<Event>) returns (read: seq<Event>)
    requires Answering(c, x, d) && Replied(r, y, d)
    ensures Replied(r, read, c)
  {
    read := AnsweringThen(c, x, d, y, r.conn);
  }

  lemma {:induction false} CaughtUpAnswers(c: Conn, target: string, w: Wish, anchor: Anchor, loaded: nat, pages: nat) returns (read: seq<Event>)
    requires w.Unread? && pages <= MAX_HISTORY_PAGES
    ensures Replied(CaughtUp(c, target, w, anchor, loaded, pages), read, c)
    decreases MAX_HISTORY_PAGES - pages, 1
  {
    read := [];
    AnsweringNothing(c, c);
    var size := NextSize(c, w, loaded);
    if size > 0 && pages < MAX_HISTORY_PAGES {
      var page := Requested(c, After(target, anchor, size), size);
      read := RequestAnswers(c, After(target, anchor, size), size);
      if page.PageDone? && page.lines >= size && page.last.Some? {
        read := OnwardAnswers(c, read, page.conn, target, w, page.last.value, loaded + page.lines, pages);
      }
    }
  }

  lemma {:induction false} OnwardAnswers(c: Conn, first: seq<Event>, d: Conn, target: string, w: Wish, anchor: Anchor, loaded: nat, pages: nat)
    returns (read: seq<Event>)
    requires w.Unread? && pages < MAX_HISTORY_PAGES && Answering(c, first, d)
    ensures Replied(CaughtUp(d, target, w, anchor, loaded, pages + 1), read, c)
    decreases MAX_HISTORY_PAGES - pages, 0
  {
    var more := CaughtUpAnswers(d, target, w, anchor, loaded, pages + 1);
    read := RepliedThen(CaughtUp(d, target, w, anchor, loaded, pages + 1), c, first, d, more);
  }

  /** Whatever the server sends: until a write fails, every ping read during a join is
      answered with its own token, in order. */
  lemma {:induction false} JoinAnswers(c: Conn, n: Network, target: string, w: Wish) returns (read: seq<Event>)
    ensures Replied(Replayed(c, n, target, w), read, c)
  {
    read := [];
    if c.writes != Some(0) {
      var wrote := Wrote(c, Join(target));
      OnePong(c, Join(target));
      AnsweringNothing(c, wrote);
      var burst := Joining(c, n, target);
      var first := BurstReads(wrote, n, target, None);
      read := AnsweringThen(c, [], wrote, first, burst.conn);
      if burst.BurstDone? {
        var more := AfterBurstAnswers(c, n, target, w, burst.conn, burst.marker);
        read := RepliedThen(Replayed(c, n, target, w), c, read, burst.conn, more);
      }
    }
  }

  lemma {:induction false} AfterBurstAnswers(c: Conn, n: Network, target: string, w: Wish, d: Conn, marker: Option<nat>) returns (read: seq<Event>)
    requires Joining(c, n, target) == BurstDone(d, marker)
    ensures Replied(Replayed(c, n, target, w), read, d)
  {
    read := [];
    AnsweringNothing(d, d);
    var count := if w.LatestOnly? then w.count else w.pageLines;
    var size := RequestSize(d.limit, count);
    if w.Unread? && 0 < w.pageLines && marker.Some? {
      read := CaughtUpAnswers(d, target, w, Marker(marker.value), 0, 0);
    } else if count > 0 {
      read := RequestAnswers(d, Latest(target, size), size);
    }
  }

  // ---- the connection

  /** What one request came to, apart from the connection. */
  datatype Reply = Refused | Read(lines: nat, last: Option<Anchor>)

  function AsPage(c: Conn, r: Result<Reply, Failure>): Page {
    match r
    case Err(why) => PageFailed(c, why)
    case Ok(Refused) => PageRefused(c)
    case Ok(Read(lines, last)) => PageDone(c, lines, last)
  }

  datatype Replay = Replay(coverage: Coverage, refused: bool)

  function AsOutcome(c: Conn, r: Result<Replay, Failure>): Outcome {
    match r
    case Err(why) => Failed(c, why)
    case Ok(Replay(coverage, refused)) => Joined(c, coverage, refused)
  }

  class Connection {
    var inputs: seq<Event>
    var events: seq<Event>
    var sent: seq<Request>
    var writes: Option<nat>
    var limit: Option<nat>
    ghost var counted: seq<Message>

    ghost function State(): Conn
      reads this
    {
      Conn(inputs, events, counted, sent, writes, limit)
    }

    /** Writes one line, unless the connection is broken. */
    method Send(request: Request) returns (r: Result<(), Failure>)
      modifies this`sent, this`writes
      ensures State() == if old(writes) == Some(0) then old(State()) else Wrote(old(State()), request)
      ensures r == if old(writes) == Some(0) then Err(WriteFailed) else Ok(())
    {
      if writes == Some(0) {
        return Err(WriteFailed);
      }
      sent, writes := sent + [request], Fewer(writes);
      return Ok(());
    }

    /** The next message of the exchange; `None` for a ping, which is answered,
        and a line that is only reported. */
    method NextJoinEvent(cap: nat) returns (r: Result<Option<Message>, Failure>)
      modifies this
      ensures match NextEvent(old(State()), cap)
        case Broke(c, why) => r == Err(why) && State() == c
        case Again(c) => r == Ok(None) && State() == c
        case Got(c, m) => r == Ok(Some(m)) && State() == c
    {
      if |events| >= cap {
        return Err(TooMany(cap));
      }
      if inputs == [] {
        return Err(ClosedEarly);
      }
      var event := inputs[0];
      inputs := inputs[1..];
      match event {
        case Line(m) =>
          limit := Adopt(limit, m);
          if m.command == "PING" {
            var _ :- Send(Pong(if m.params == [] then "" else m.params[0]));
            return Ok(None);
          }
          return Ok(Some(m));
        case Rejected =>
          events := events + [Rejected];
          return Ok(None);
      }
    }

    /** Reads up to the end of names of `target`, keeping its read marker. */
    method AwaitJoined(n: Network, target: string) returns (r: Result<Option<nat>, Failure>)
      modifies this
      ensures Arrived(old(State()), n, target, None)
           == if r.Ok? then BurstDone(State(), r.value) else BurstFailed(State(), r.error)
    {
      var marker := None;
      while true
        invariant Arrived(State(), n, target, marker) == Arrived(old(State()), n, target, None)
        decreases |inputs|
      {
        var read :- NextJoinEvent(MAX_JOIN_BURST_LINES);
        if read.Some? {
          var m := read.value;
          if IsJoinRefusal(n, target, m) {
            return Err(JoinRefused(m));
          }
          marker := Marked(n, target, m, marker);
          events := events + [Line(m)];
          if IsJoined(n, target, m) {
            return Ok(marker);
          }
        }
      }
    }

    /** Sends one request for at most `count` lines and reads its batch. */
    method HistoryPage(request: Request, count: nat) returns (r: Result<Reply, Failure>)
      modifies this
      ensures Requested(old(State()), request, count) == AsPage(State(), r)
    {
      var _ :- Send(request);
      var cap := |events| + count + MAX_JOIN_BURST_LINES;
      var batch, lines, last := None, 0, None;
      while true
        invariant PageFrom(State(), batch, lines, last, cap) == Requested(old(State()), request, count)
        decreases |inputs|
      {
        var read :- NextJoinEvent(cap);
        if read.Some? {
          var m := read.value;
          if IsHistoryRefusal(m) {
            return Ok(Refused);
          }
          if Opens(m) {
            batch := Some(m.params[0][1..]);
          } else if Closes(m, batch) {
            return Ok(Read(lines, last));
          } else {
            lines, last := HoldLine(m, batch, lines, last);
          }
        }
      }
    }

    /** Keep a line that came while a page was read, counted when it is part of it. */
    method HoldLine(m: Message, batch: Option<string>, lines: nat, last: Option<Anchor>) returns (more: nat, anchor: Option<Anchor>)
      modifies this`events, this`counted
      ensures State() == if InBatch(m, batch) then Held(old(State()), m).(counted := old(counted) + [m]) else Held(old(State()), m)
      ensures more == if InBatch(m, batch) then lines + 1 else lines
      ensures anchor == if InBatch(m, batch) then AnchorAfter(m, last) else last
    {
      more, anchor := lines, last;
      if InBatch(m, batch) {
        more := lines + 1;
        anchor := AnchorAfter(m, last);
        counted := counted + [m];
      }
      events := events + [Line(m)];
    }

    method LatestPage(target: string, count: nat) returns (r: Result<Replay, Failure>)
      modifies this
      ensures LatestLoaded(old(State()), target, count) == AsOutcome(State(), r)
    {
      var size := RequestSize(limit, count);
      var page :- HistoryPage(Latest(target, size), size);
      return Ok(if page.Refused? then Replay(NoHistory, true) else Replay(LatestLines, false));
    }

    /** Pages forward from the read marker. */
    method CatchUp(target: string, w: Wish, marker: nat) returns (r: Result<Replay, Failure>)
      requires w.Unread?
      modifies this
      ensures CaughtUp(old(State()), target, w, Marker(marker), 0, 0) == AsOutcome(State(), r)
    {
      var anchor, loaded: nat, pages: nat := Marker(marker), 0, 0;
      while true
        invariant pages <= MAX_HISTORY_PAGES
        invariant CaughtUp(State(), target, w, anchor, loaded, pages) == CaughtUp(old(State()), target, w, Marker(marker), 0, 0)
        decreases MAX_HISTORY_PAGES - pages
      {
        var size := RequestSize(limit, Min(w.pageLines, Less(w.maxLines, loaded)));
        if size == 0 || pages == MAX_HISTORY_PAGES {
          return Ok(Replay(UnreadBeyondLoaded, false));
        }
        var page :- HistoryPage(After(target, anchor, size), size);
        if page.Refused? {
          return Ok(Replay(UnreadBeyondLoaded, true));
        }
        pages := pages + 1;
        loaded := loaded + page.lines;
        if page.lines < size {
          return Ok(Replay(AllUnread, false));
        }
        if page.last.None? {
          return Ok(Replay(UnreadBeyondLoaded, false));
        }
        anchor := page.last.value;
      }
    }

    /** Joins `target` and loads the history asked for. */
    method JoinAndReplay(n: Network, target: string, w: Wish) returns (r: Result<Replay, Failure>)
      modifies this
      ensures Replayed(old(State()), n, target, w) == AsOutcome(State(), r)
    {
      var _ :- Send(Join(target));
      var marker :- AwaitJoined(n, target);
      match w {
        case LatestOnly(count) =>
          if count == 0 {
            return Ok(Replay(NoHistory, false));
          }
          r := LatestPage(target, count);
        case Unread(pageLines, _) =>
          if pageLines == 0 {
            return Ok(Replay(NoHistory, false));
          }
          if marker.None? {
            r := LatestPage(target, pageLines);
          } else {
            r := CatchUp(target, w, marker.value);
          }
      }
    }
  }
}
