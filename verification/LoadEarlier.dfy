/**
  "Load earlier": a page that follows a network's ring of lines, records with
  each row where the ring was before it, and later reads history up to the oldest
  row's record.
 */
module LoadEarlier {
  import opened Wrappers
  import opened Timeline

  const MAX_LINES: nat := 500
  const MAX_LOADED_LINES: nat := 1500
  const HISTORY_LINES: nat := 1000

  /** What one ring line is to one conversation: nothing, a notice only the page
      shows, or a message, which history holds too. */
  datatype Made = Nothing | Notice(row: Row) | Message(row: Row)

  // ---- rows of a stretch of the ring

  function RowOf(made: Made, floor: Option<nat>): seq<Row> {
    if made.Nothing? then [] else [made.row.(ringFloor := floor)]
  }

  /** The rows the page makes of ring lines `i` to `j`, each with its floor. */
  function Rows(ring: seq<Made>, floors: seq<Option<nat>>, i: nat, j: nat): seq<Row>
    requires i <= j <= |ring| == |floors|
    decreases j - i
  {
    if i == j then []
    else RowOf(ring[i], floors[i]) + Rows(ring, floors, i + 1, j)
  }

  /** The messages of ring lines `i` to `j`, as history returns them. */
  function Messages(ring: seq<Made>, i: nat, j: nat): seq<Row>
    requires i <= j <= |ring|
    decreases j - i
  {
    if i == j then []
    else (if ring[i].Message? then [ring[i].row.(ringFloor := None)] else []) + Messages(ring, i + 1, j)
  }

  /** Every message of ring lines `i` to `j`, once each and in order, with the
      notices among those from `t` on. */
  function Everything(ring: seq<Made>, floors: seq<Option<nat>>, i: nat, t: nat, j: nat): seq<Row>
    requires i <= j <= |ring| == |floors|
    decreases j - i
  {
    if i == j then []
    else if i >= t then Rows(ring, floors, i, j)
    else (if ring[i].Message? then [ring[i].row.(ringFloor := None)] else []) + Everything(ring, floors, i + 1, t, j)
  }

  lemma {:induction false} OneMoreLine(ring: seq<Made>, floors: seq<Option<nat>>, i: nat, made: Made, floor: Option<nat>)
    requires i <= |ring| == |floors|
    ensures Rows(ring + [made], floors + [floor], i, |ring| + 1)
         == Rows(ring, floors, i, |ring|) + RowOf(made, floor)
    decreases |ring| - i
  {
    if i < |ring| {
      OneMoreLine(ring, floors, i + 1, made, floor);
    } else {
      assert Rows(ring + [made], floors + [floor], i + 1, |ring| + 1) == [];
    }
  }

  lemma {:induction false} EverythingIs(ring: seq<Made>, floors: seq<Option<nat>>, i: nat, t: nat, j: nat)
    requires i <= t <= j <= |ring| == |floors|
    ensures Everything(ring, floors, i, t, j) == Messages(ring, i, t) + Rows(ring, floors, t, j)
    decreases t - i
  {
    if i < t {
      EverythingIs(ring, floors, i + 1, t, j);
    }
  }

  /** The first ring line from `i` on that makes a row. */
  function NextMade(ring: seq<Made>, i: nat): (at: nat)
    requires i <= |ring|
    ensures i <= at <= |ring| && (at < |ring| ==> !ring[at].Nothing?)
    decreases |ring| - i
  {
    if i == |ring| || !ring[i].Nothing? then i else NextMade(ring, i + 1)
  }

  lemma {:induction false} NothingSkipped(ring: seq<Made>, floors: seq<Option<nat>>, i: nat)
    requires i <= |ring| == |floors|
    ensures Rows(ring, floors, i, |ring|) == Rows(ring, floors, NextMade(ring, i), |ring|)
    decreases |ring| - i
  {
    if i < |ring| && ring[i].Nothing? {
      NothingSkipped(ring, floors, i + 1);
    }
  }

  /** After one more line, and the oldest row dropped if it makes one too many, the
      rows are again those of every line from some line on. */
  lemma {:induction false} Advanced(ring: seq<Made>, floors: seq<Option<nat>>, from: nat, made: Made, floor: Option<nat>, limit: nat)
    returns (now: nat)
    requires from <= |ring| == |floors| && (from < |ring| ==> !ring[from].Nothing?)
    requires |Rows(ring, floors, from, |ring|)| <= limit && 0 < limit
    ensures now <= |ring| + 1 && (now < |ring| + 1 ==> !(ring + [made])[now].Nothing?)
    ensures Newest(Rows(ring, floors, from, |ring|) + RowOf(made, floor), limit) == Rows(ring + [made], floors + [floor], now, |ring| + 1)
  {
    var ring', floors' := ring + [made], floors + [floor];
    OneMoreLine(ring, floors, from, made, floor);
    NothingSkipped(ring', floors', from);
    now := NextMade(ring', from);
    if |Rows(ring', floors', now, |ring'|)| > limit {
      NothingSkipped(ring', floors', now + 1);
      now := NextMade(ring', now + 1);
    }
  }

  /** A floor names the line before its own. */
  ghost predicate NameTheLineBefore(floors: seq<Option<nat>>) {
    forall i | 0 <= i < |floors| :: floors[i].Some? ==> floors[i].value + 1 == i
  }

  lemma {:induction false} OneMoreFloor(floors: seq<Option<nat>>, floor: Option<nat>)
    requires NameTheLineBefore(floors) && (floor.Some? ==> floor.value + 1 == |floors|)
    ensures NameTheLineBefore(floors + [floor])
  {
  }

  // ---- nothing is read twice

  /** No two lines of the ring make rows of one identity. */
  ghost predicate DistinctIdentities(ring: seq<Made>) {
    forall i, j | 0 <= i < j < |ring| ::
      !ring[i].Nothing? && !ring[j].Nothing? && ring[i].row.identity.Some? ==> ring[i].row.identity != ring[j].row.identity
  }

  lemma {:induction false} MessageFrom(ring: seq<Made>, i: nat, j: nat, row: Row) returns (at: nat)
    requires i <= j <= |ring| && row in Messages(ring, i, j)
    ensures i <= at < j && ring[at].Message? && row == ring[at].row.(ringFloor := None)
    decreases j - i
  {
    if ring[i].Message? && row == ring[i].row.(ringFloor := None) {
      at := i;
    } else {
      at := MessageFrom(ring, i + 1, j, row);
    }
  }

  lemma {:induction false} RowFrom(ring: seq<Made>, floors: seq<Option<nat>>, i: nat, j: nat, row: Row) returns (at: nat)
    requires i <= j <= |ring| == |floors| && row in Rows(ring, floors, i, j)
    ensures i <= at < j && !ring[at].Nothing? && row == ring[at].row.(ringFloor := floors[at])
    decreases j - i
  {
    if !ring[i].Nothing? && row == ring[i].row.(ringFloor := floors[i]) {
      at := i;
    } else {
      at := RowFrom(ring, floors, i + 1, j, row);
    }
  }

  /** Messages of earlier lines all stay before rows of later ones. */
  lemma {:induction false} AllMessagesStay(ring: seq<Made>, floors: seq<Option<nat>>, i: nat, j: nat, seen: set<string>)
    requires i <= j <= |ring| == |floors| && DistinctIdentities(ring) && seen <= Identities(Rows(ring, floors, j, |ring|))
    ensures Survivors(Messages(ring, i, j), seen) == Messages(ring, i, j)
    decreases j - i
  {
    if i < j {
      AllMessagesStay(ring, floors, i + 1, j, seen);
      if ring[i].Message? {
        MessageStays(ring, floors, i, j, seen);
        assert Messages(ring, i, j)[1..] == Messages(ring, i + 1, j);
      } else {
        assert Messages(ring, i, j) == Messages(ring, i + 1, j);
      }
    }
  }

  lemma {:induction false} MessageStays(ring: seq<Made>, floors: seq<Option<nat>>, i: nat, j: nat, seen: set<string>)
    requires i < j <= |ring| == |floors| && DistinctIdentities(ring) && seen <= Identities(Rows(ring, floors, j, |ring|))
    requires ring[i].Message?
    ensures Stays(Messages(ring, i, j), seen, 0)
  {
    var page, later := Messages(ring, i, j), Messages(ring, i + 1, j);
    if Identified(page[0]) {
      forall x | 0 < x < |page| ensures page[x].identity != page[0].identity {
        assert page[x] == later[x - 1];
        var at := MessageFrom(ring, i + 1, j, page[x]);
      }
      forall row | row in Rows(ring, floors, j, |ring|) && Identified(row) ensures row.identity.value != page[0].identity.value {
        var at := RowFrom(ring, floors, j, |ring|, row);
      }
    }
  }

  /** The rows shown are those of the ring's lines after `t`, but for the first,
      which were `gone`. */
  predicate Misses(ring: seq<Made>, floors: seq<Option<nat>>, lines: seq<Row>, t: nat, gone: seq<Row>) {
    |floors| == |ring| && t < |ring| && Rows(ring, floors, t + 1, |ring|) == gone + lines
  }

  /** History through `t` before the rows shown is everything but what is gone. */
  lemma {:induction false} AllButGone(ring: seq<Made>, floors: seq<Option<nat>>, lines: seq<Row>, first: nat, t: nat, gone: seq<Row>)
    requires Misses(ring, floors, lines, t, gone) && first <= t + 1 && DistinctIdentities(ring)
    ensures Kept(Messages(ring, first, t + 1), Identities(lines)) == Messages(ring, first, t + 1)
    ensures Everything(ring, floors, first, t + 1, |ring|) == Messages(ring, first, t + 1) + (gone + lines)
  {
    assert Identities(lines) <= Identities(gone + lines);
    AllMessagesStay(ring, floors, first, t + 1, Identities(lines));
    KeptAreSurvivors(Messages(ring, first, t + 1), Identities(lines));
    EverythingIs(ring, floors, first, t + 1, |ring|);
  }

  /** History read up to a line, before the rows of every line after it, is every
      message once, in order. */
  lemma {:induction false} NothingTwice(ring: seq<Made>, floors: seq<Option<nat>>, lines: seq<Row>, first: nat, t: nat)
    requires Misses(ring, floors, lines, t, []) && first <= t + 1 && DistinctIdentities(ring)
    ensures Kept(Messages(ring, first, t + 1), Identities(lines)) + lines == Everything(ring, floors, first, t + 1, |ring|)
  {
    AllButGone(ring, floors, lines, first, t, []);
    assert [] + lines == lines;
  }

  /** A row dropped between asking and being answered is a gap: history and the
      rows left are everything exactly when no row is gone. */
  lemma {:induction false} GapIff(ring: seq<Made>, floors: seq<Option<nat>>, lines: seq<Row>, first: nat, t: nat, gone: seq<Row>)
    requires Misses(ring, floors, lines, t, gone) && first <= t + 1 && DistinctIdentities(ring)
    ensures Kept(Messages(ring, first, t + 1), Identities(lines)) + lines == Everything(ring, floors, first, t + 1, |ring|) <==> gone == []
  {
    AllButGone(ring, floors, lines, first, t, gone);
    Longer(Messages(ring, first, t + 1), gone, lines);
  }

  lemma {:induction false} Longer(a: seq<Row>, b: seq<Row>, c: seq<Row>)
    ensures a + c == a + (b + c) <==> b == []
  {
    assert |a + (b + c)| == |a + c| + |b|;
    assert b == [] ==> b + c == c;
  }

  /** What the cap drops when one more row comes. */
  function Dropped(rows: seq<Row>, limit: nat): seq<Row> {
    rows[..|rows| - |Newest(rows, limit)|]
  }

  /** A line that comes while history is being fetched adds its row, and what the
      cap then drops is gone too. */
  lemma {:induction false} GoneAfterLine(ring: seq<Made>, floors: seq<Option<nat>>, lines: seq<Row>, t: nat, gone: seq<Row>,
                                         made: Made, floor: Option<nat>, limit: nat)
    requires Misses(ring, floors, lines, t, gone)
    ensures var grown := lines + RowOf(made, floor);
            Misses(ring + [made], floors + [floor], Newest(grown, limit), t, gone + Dropped(grown, limit))
  {
    var grown := lines + RowOf(made, floor);
    OneMoreLine(ring, floors, t + 1, made, floor);
    DroppedThenKept(grown, limit);
    Glue(gone, lines, RowOf(made, floor));
    Glue(gone, Dropped(grown, limit), Newest(grown, limit));
  }

  lemma {:induction false} DroppedThenKept(rows: seq<Row>, limit: nat)
    ensures Dropped(rows, limit) + Newest(rows, limit) == rows
    ensures 0 < limit && |rows| <= limit + 1 ==> Newest(rows, limit) == if |rows| > limit then rows[1..] else rows
  {
  }

  // ---- the page

  /** The row of one more line, and the oldest row dropped if that is one too many. */
  method AppendRow(rows: seq<Row>, made: Made, floor: Option<nat>, limit: nat) returns (shown: seq<Row>)
    requires |rows| <= limit && 0 < limit
    ensures shown == Newest(rows + RowOf(made, floor), limit)
  {
    DroppedThenKept(rows + RowOf(made, floor), limit);
    shown := rows;
    if !made.Nothing? {
      shown := shown + [made.row.(ringFloor := floor)];
    } else {
      assert rows + [] == rows;
    }
    if |shown| > limit {
      shown := shown[1..];
    }
  }

  class Page {
    var cursor: Option<nat>
    var lines: seq<Row>
    var historyLoaded: bool
    /** The network's lines so far, where the cursor stood before each that this
        page was sent, and the oldest line that is still a row. */
    ghost var ring: seq<Made>
    ghost var floors: seq<Option<nat>>
    ghost var from: nat

    /** The cursor names the last line; a floor names the line before its own; and
        until history is loaded the rows are those of every line since the oldest
        row's. */
    ghost predicate Valid()
      reads this
    {
      && |floors| == |ring|
      && (cursor.Some? ==> cursor.value + 1 == |ring|)
      && NameTheLineBefore(floors)
      && from <= |ring|
      && (!historyLoaded ==>
            && lines == Rows(ring, floors, from, |ring|)
            && (from < |ring| ==> !ring[from].Nothing?))
      && |lines| <= if historyLoaded then MAX_LOADED_LINES else MAX_LINES
    }

    /** A page that starts to follow a ring that already holds lines. */
    constructor (ghost already: seq<Made>)
      ensures Valid() && ring == already && lines == [] && !historyLoaded && cursor == None
    {
      cursor, lines, historyLoaded := None, [], false;
      ring, floors, from := already, seq(|already|, _ => None), |already|;
    }

    /** One line of the ring with its position, and the row it makes here, if any. */
    method OnLine(made: Made, position: nat)
      requires Valid() && position == |ring|
      modifies this
      ensures Valid() && ring == old(ring) + [made] && floors == old(floors) + [old(cursor)] && historyLoaded == old(historyLoaded)
      ensures cursor == Some(position)
      ensures lines == Newest(old(lines) + RowOf(made, old(cursor)), if historyLoaded then MAX_LOADED_LINES else MAX_LINES)
    {
      var limit := if historyLoaded then MAX_LOADED_LINES else MAX_LINES;
      if historyLoaded {
        from := |ring| + 1;
      } else {
        from := Advanced(ring, floors, from, made, cursor, limit);
      }
      lines := AppendRow(lines, made, cursor, limit);
      OneMoreFloor(floors, cursor);
      ring, floors := ring + [made], floors + [cursor];
      cursor := Some(position);
    }

    /** The end of a replay: the server names the last line it holds. */
    method OnSnapshot(last: nat)
      requires Valid() && last + 1 == |ring|
      modifies this`cursor
      ensures Valid() && cursor == Some(last)
    {
      cursor := Some(last);
    }

    /** The server could not go on from the cursor: another ring is replayed from
        its oldest line, which is not its first. */
    method OnReplay(ghost already: seq<Made>)
      requires Valid()
      modifies this
      ensures Valid() && lines == [] && !historyLoaded && cursor == None && ring == already
    {
      cursor, lines, historyLoaded := None, [], false;
      ring, floors, from := already, seq(|already|, _ => None), |already|;
    }

    /** Every row the ring's lines after `through` made is shown, and no other. */
    ghost predicate HoldsAfter(through: nat)
      reads this
    {
      Misses(ring, floors, lines, through, [])
    }

    /** Where history may be read through: before the oldest row, or for an empty
        conversation up to the cursor; nowhere when the oldest row came first in a
        full replay. */
    method Through() returns (through: Option<nat>)
      requires Valid() && !historyLoaded
      ensures lines == [] ==> through == cursor
      ensures lines != [] ==> from < |ring| && through == floors[from]
      ensures through.Some? ==> HoldsAfter(through.value)
    {
      through := if lines == [] then cursor else lines[0].ringFloor;
      assert [] + lines == lines;
    }

    /** The answer: the messages of whatever lines through `through` the server
        still holds, put before the rows shown. When every row since is still
        shown, the rows are then every message from the first of those lines on,
        exactly once and in order, up to the cap; otherwise exactly the rows gone
        since are missing. */
    method OnHistory(through: nat, page: seq<Row>, ghost first: nat, ghost gone: seq<Row>)
      requires Valid() && !historyLoaded && first <= through + 1 <= |ring|
      requires page == Messages(ring, first, through + 1)
      modifies this
      ensures Valid() && historyLoaded && ring == old(ring) && floors == old(floors) && cursor == old(cursor)
      ensures lines == Prepended(page, old(lines), MAX_LOADED_LINES)
      ensures old(HoldsAfter(through)) && DistinctIdentities(ring) ==>
                lines == Newest(Everything(ring, floors, first, through + 1, |ring|), MAX_LOADED_LINES)
      ensures old(Misses(ring, floors, lines, through, gone)) && DistinctIdentities(ring) ==>
                && lines == Newest(page + old(lines), MAX_LOADED_LINES)
                && Everything(ring, floors, first, through + 1, |ring|) == page + (gone + old(lines))
    {
      if HoldsAfter(through) && DistinctIdentities(ring) {
        NothingTwice(ring, floors, lines, first, through);
      }
      if Misses(ring, floors, lines, through, gone) && DistinctIdentities(ring) {
        AllButGone(ring, floors, lines, first, through, gone);
      }
      lines := PrependHistory(page, lines, MAX_LOADED_LINES);
      historyLoaded := true;
    }
  }

  // ---- a gap

  /** How many of these lines make a row. */
  function CountMade(mades: seq<Made>): nat {
    if mades == [] then 0 else CountMade(mades[..|mades| - 1]) + if mades[|mades| - 1].Nothing? then 0 else 1
  }

  /** What a page shows and what it has lost, while lines come in: together the rows
      it had and those made since, and nothing lost that there was room for. */
  ghost predicate Losing(page: Page, through: nat, gone: seq<Row>, rows: nat)
    reads page
  {
    && page.Valid() && !page.historyLoaded
    && Misses(page.ring, page.floors, page.lines, through, gone)
    && |gone| + |page.lines| == rows
    && (gone == [] || |page.lines| == MAX_LINES)
  }

  lemma {:induction false} OneMoreMade(mades: seq<Made>, i: nat)
    requires i < |mades|
    ensures CountMade(mades[..i + 1]) == CountMade(mades[..i]) + if mades[i].Nothing? then 0 else 1
  {
    assert mades[..i + 1][..i] == mades[..i];
  }

  /** One line while history is being fetched. */
  method LoseOne(page: Page, through: nat, made: Made, position: nat, ghost gone: seq<Row>, ghost rows: nat)
    returns (ghost now: seq<Row>)
    requires Losing(page, through, gone, rows) && position == |page.ring|
    modifies page
    ensures Losing(page, through, now, rows + if made.Nothing? then 0 else 1)
    ensures page.ring == old(page.ring) + [made] && page.floors == old(page.floors) + [old(page.cursor)]
  {
    now := gone + Dropped(page.lines + RowOf(made, page.cursor), MAX_LINES);
    GoneAfterLine(page.ring, page.floors, page.lines, through, gone, made, page.cursor, MAX_LINES);
    page.OnLine(made, position);
  }

  /** Any number of lines while history is being fetched. */
  method LoseAll(page: Page, through: nat, mades: seq<Made>, position: nat) returns (ghost gone: seq<Row>)
    requires page.Valid() && !page.historyLoaded && page.HoldsAfter(through) && position == |page.ring|
    modifies page
    ensures Losing(page, through, gone, |old(page.lines)| + CountMade(mades))
    ensures page.ring == old(page.ring) + mades
  {
    gone := [];
    ghost var had := page.lines;
    var i := 0;
    assert mades[..0] == [] && page.ring + [] == page.ring;
    while i < |mades|
      invariant 0 <= i <= |mades| && page.ring == old(page.ring) + mades[..i]
      invariant Losing(page, through, gone, |had| + CountMade(mades[..i]))
    {
      OneMoreMade(mades, i);
      gone := LoseOne(page, through, mades[i], position + i, gone, |had| + CountMade(mades[..i]));
      i := i + 1;
      assert mades[..i] == mades[..i - 1] + [mades[i - 1]];
    }
    assert mades[..i] == mades;
  }

  /** The question is asked where `Through` says; any lines come before the answer,
      which holds the messages of whatever lines through there the server still has.
      The page is then everything from the first of those on exactly when its rows
      and those the lines made were not too many to show. */
  method AnsweredAfterLines(page: Page, through: nat, mades: seq<Made>, position: nat, history: seq<Row>, ghost first: nat)
    requires page.Valid() && !page.historyLoaded && page.HoldsAfter(through) && position == |page.ring| && first <= through + 1
    requires history == Messages(page.ring + mades, first, through + 1) && |history| <= HISTORY_LINES
    requires DistinctIdentities(page.ring + mades)
    modifies page
    ensures page.Valid() && page.historyLoaded && page.ring == old(page.ring) + mades
    ensures page.lines == Everything(page.ring, page.floors, first, through + 1, |page.ring|)
            <==> |old(page.lines)| + CountMade(mades) <= MAX_LINES
    ensures |Everything(page.ring, page.floors, first, through + 1, |page.ring|)| - |page.lines|
         == Less(|old(page.lines)| + CountMade(mades), MAX_LINES)
  {
    ghost var gone := LoseAll(page, through, mades, position);
    Longer(history, gone, page.lines);
    page.OnHistory(through, history, first, gone);
  }

  /** The same from the question on: where there is a position to ask for. */
  method LoadEarlier(page: Page, mades: seq<Made>, position: nat, answer: nat -> seq<Row>, ghost first: nat -> nat)
    requires page.Valid() && !page.historyLoaded && position == |page.ring| && DistinctIdentities(page.ring + mades)
    requires forall t: nat | t < |page.ring| ::
               && first(t) <= t + 1
               && answer(t) == Messages(page.ring + mades, first(t), t + 1) && |answer(t)| <= HISTORY_LINES
    modifies page
    ensures page.Valid() && (page.historyLoaded <==> old(Asked(page)).Some?)
    ensures page.historyLoaded ==>
              var t := old(Asked(page)).value;
              && t < |page.ring|
              && (page.lines == Everything(page.ring, page.floors, first(t), t + 1, |page.ring|)
                  <==> |old(page.lines)| + CountMade(mades) <= MAX_LINES)
  {
    var through := page.Through();
    if through.Some? {
      AnsweredAfterLines(page, through.value, mades, position, answer(through.value), first(through.value));
    }
  }

  /** Where a page would ask for history through. */
  ghost function Asked(page: Page): Option<nat>
    reads page
  {
    if page.lines == [] then page.cursor else page.lines[0].ringFloor
  }

  function Same(made: Made, n: nat): seq<Made> {
    seq(n, _ => made)
  }

  lemma {:induction false} AllMade(mades: seq<Made>)
    requires forall i | 0 <= i < |mades| :: !mades[i].Nothing?
    ensures CountMade(mades) == |mades|
  {
    if mades != [] {
      AllMade(mades[..|mades| - 1]);
    }
  }

  /** A page as full as it may be asks for history; messages come before the
      answer; and as many of the oldest rows, which no history up to their floors
      holds, are missing for good. */
  method GapIsReached(row: Row, more: nat) returns (page: Page)
    requires row.identity == None && more > 0
    ensures fresh(page) && page.Valid() && page.historyLoaded && DistinctIdentities(page.ring)
    ensures |Everything(page.ring, page.floors, 0, 1, |page.ring|)| - |page.lines| == more
  {
    var full, mades := Same(Message(row), MAX_LINES), Same(Message(row), more);
    AllMade(full);
    AllMade(mades);
    page := new Page([Nothing]);
    page.OnSnapshot(0);
    ghost var gone := LoseAll(page, 0, full, 1);
    assert gone == [];
    assert Messages(page.ring + mades, 0, 1) == [];
    AnsweredAfterLines(page, 0, mades, MAX_LINES + 1, [], 0);
  }
}
