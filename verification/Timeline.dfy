/**
  Putting older history before the rows a page already shows: by stable
  identities, and by the exact overlap of the two where no position bounds it.
 */
module Timeline {
  import opened Wrappers

  /** A row: its identity when the line carried one, who said it, what kind of
      line it is, what it says, the exact line it came from, and where the ring was
      before that line. */
  datatype Row = Row(identity: Option<string>, sender: Option<string>, kind: string, text: string, wire: Option<string>,
                     ringFloor: Option<nat>)

  /** An empty identity is none. */
  predicate Identified(row: Row) {
    row.identity.Some? && row.identity.value != ""
  }

  function Identities(rows: seq<Row>): set<string> {
    set row | row in rows && Identified(row) :: row.identity.value
  }

  /** The newest `limit` rows; every row when the limit is none, as cutting from
      the end by zero keeps everything. */
  function Newest<T>(rows: seq<T>, limit: nat): seq<T> {
    if limit == 0 || |rows| <= limit then rows else rows[|rows| - limit..]
  }

  /** What is left is the end of the rows, as long as the limit lets it be. */
  lemma {:induction false} NewestIsTheEnd<T>(rows: seq<T>, limit: nat)
    ensures |Newest(rows, limit)| == if limit == 0 then |rows| else Min(|rows|, limit)
    ensures rows == rows[..|rows| - |Newest(rows, limit)|] + Newest(rows, limit)
  {
  }

  // ---- prepending

  /** The rows of `history` kept before rows whose identities are `seen`, read
      from the newest to the oldest. */
  function Kept(history: seq<Row>, seen: set<string>): seq<Row> {
    if history == [] then []
    else
      var row, older := history[|history| - 1], history[..|history| - 1];
      if !Identified(row) then Kept(older, seen) + [row]
      else if row.identity.value in seen then Kept(older, seen)
      else Kept(older, seen + {row.identity.value}) + [row]
  }

  function Prepended(history: seq<Row>, live: seq<Row>, limit: nat): seq<Row> {
    Newest(Kept(history, Identities(live)) + live, limit)
  }

  function Reversed(rows: seq<Row>): seq<Row> {
    if rows == [] then [] else Reversed(rows[1..]) + [rows[0]]
  }

  lemma {:induction false} ReversedEnd(rows: seq<Row>, row: Row)
    ensures Reversed(rows + [row]) == [row] + Reversed(rows)
  {
    if rows == [] {
      assert rows + [row] == [row];
      assert Reversed([row]) == Reversed([row][1..]) + [row];
    } else {
      assert (rows + [row])[1..] == rows[1..] + [row];
      ReversedEnd(rows[1..], row);
    }
  }

  method PrependHistory(history: seq<Row>, live: seq<Row>, limit: nat) returns (rows: seq<Row>)
    ensures rows == Prepended(history, live, limit)
  {
    var seen: set<string> := {};
    for i := 0 to |live|
      invariant seen == Identities(live[..i])
    {
      OneMore(live, i);
      if Identified(live[i]) {
        seen := seen + {live[i].identity.value};
      }
    }
    assert live[..|live|] == live;
    var reversed: seq<Row> := [];
    var index := |history|;
    assert history[..index] == history;
    while index > 0
      invariant 0 <= index <= |history|
      invariant Kept(history[..index], seen) + Reversed(reversed) == Kept(history, Identities(live))
    {
      index := index - 1;
      var row := history[index];
      ReadBack(history, index);
      if Identified(row) && row.identity.value in seen {
        continue;
      }
      ReversedEnd(reversed, row);
      OneOver(Kept(history[..index], if Identified(row) then seen + {row.identity.value} else seen), row, Reversed(reversed));
      if Identified(row) {
        seen := seen + {row.identity.value};
      }
      reversed := reversed + [row];
    }
    assert history[..index] == [];
    return Newest(Reversed(reversed) + live, limit);
  }

  lemma {:induction false} OneMore(live: seq<Row>, i: nat)
    requires i < |live|
    ensures Identities(live[..i + 1]) == Identities(live[..i]) + if Identified(live[i]) then {live[i].identity.value} else {}
  {
    assert live[..i + 1] == live[..i] + [live[i]];
  }

  lemma {:induction false} ReadBack(history: seq<Row>, index: nat)
    requires index < |history|
    ensures history[..index + 1][..index] == history[..index] && history[..index + 1][index] == history[index]
  {
  }

  lemma {:induction false} OneOver(a: seq<Row>, row: Row, b: seq<Row>)
    ensures a + [row] + b == a + ([row] + b)
  {
  }

  // ---- what prepending keeps

  /** A row is kept unless a row shown, or a later one of the history, has its
      identity. */
  predicate Stays(history: seq<Row>, seen: set<string>, i: nat)
    requires i < |history|
  {
    Identified(history[i]) ==>
      && history[i].identity.value !in seen
      && forall j | i < j < |history| :: history[j].identity != history[i].identity
  }

  /** The rows that stay, in their order. */
  function Survivors(history: seq<Row>, seen: set<string>): seq<Row> {
    if history == [] then []
    else (if Stays(history, seen, 0) then [history[0]] else []) + Survivors(history[1..], seen)
  }

  lemma {:induction false} SurvivorsAtEnd(history: seq<Row>, row: Row, seen: set<string>)
    ensures Survivors(history + [row], seen)
         == if !Identified(row) then Survivors(history, seen) + [row]
            else if row.identity.value in seen then Survivors(history, seen)
            else Survivors(history, seen + {row.identity.value}) + [row]
  {
    var all := history + [row];
    if history == [] {
      assert all == [row] && all[1..] == [];
      assert Survivors(all[1..], seen) == [];
    } else {
      SurvivorsAtEnd(history[1..], row, seen);
      assert all[1..] == history[1..] + [row];
      StaysBeforeEnd(history, row, seen);
    }
  }

  lemma {:induction false} StaysBeforeEnd(history: seq<Row>, row: Row, seen: set<string>)
    requires history != []
    ensures Stays(history + [row], seen, 0)
         == Stays(history, if Identified(row) then seen + {row.identity.value} else seen, 0)
    ensures Identified(row) && row.identity.value in seen ==> Stays(history + [row], seen, 0) == Stays(history, seen, 0)
  {
    var all := history + [row];
    assert all[0] == history[0] && all[|history|] == row;
    assert forall j | 0 < j < |history| :: all[j] == history[j];
  }

  /** Reading backwards with a growing set keeps exactly the rows that stay. */
  lemma {:induction false} KeptAreSurvivors(history: seq<Row>, seen: set<string>)
    ensures Kept(history, seen) == Survivors(history, seen)
  {
    if history != [] {
      var row, older := history[|history| - 1], history[..|history| - 1];
      assert older + [row] == history;
      SurvivorsAtEnd(older, row, seen);
      KeptAreSurvivors(older, seen);
      KeptAreSurvivors(older, if Identified(row) then seen + {row.identity.value} else seen);
    }
  }

  /** No row kept has the identity of another, or of one already shown. */
  lemma {:induction false} NoIdentityTwice(history: seq<Row>, seen: set<string>)
    ensures forall i | 0 <= i < |Kept(history, seen)| :: Identified(Kept(history, seen)[i]) ==> Kept(history, seen)[i].identity.value !in seen
    ensures forall i, j | 0 <= i < j < |Kept(history, seen)| ::
              Identified(Kept(history, seen)[i]) ==> Kept(history, seen)[i].identity != Kept(history, seen)[j].identity
  {
    if history != [] {
      var row, older := history[|history| - 1], history[..|history| - 1];
      NoIdentityTwice(older, if Identified(row) && row.identity.value !in seen then seen + {row.identity.value} else seen);
    }
  }

  /** When nothing is shown twice, nothing is dropped. */
  lemma {:induction false} AllStay(history: seq<Row>, seen: set<string>)
    requires forall i | 0 <= i < |history| :: Stays(history, seen, i)
    ensures Kept(history, seen) == history
  {
    if history != [] {
      var row, older := history[|history| - 1], history[..|history| - 1];
      var more := if Identified(row) then seen + {row.identity.value} else seen;
      assert Stays(history, seen, |history| - 1);
      forall i | 0 <= i < |older| ensures Stays(older, more, i) {
        assert Stays(history, seen, i);
        assert forall j | i < j < |older| :: older[j] == history[j];
      }
      AllStay(older, more);
      assert older + [row] == history;
    }
  }

  // ---- merging at the seam

  /** What a row is matched by: its exact line; for one of our own, what it said;
      nothing for a row history has no counterpart of. */
  function SeamKey(row: Row, mine: string -> bool): Option<string> {
    if row.sender.Some? && mine(row.sender.value) then Some("mine\n" + row.kind + "\n" + row.text)
    else if row.wire.Some? && row.wire.value != "" then row.wire
    else None
  }

  /** Rows of our own are matched by kind and text alike, others by the line they came
      from; and one of our own by another's only if that line spells it. */
  lemma {:induction false} SeamKeysMatchIff(a: Row, b: Row, mine: string -> bool)
    requires '\n' !in a.kind && '\n' !in b.kind
    ensures var own, other := a.sender.Some? && mine(a.sender.value), b.sender.Some? && mine(b.sender.value);
            && (own && other ==> (SeamKey(a, mine) == SeamKey(b, mine) <==> a.kind == b.kind && a.text == b.text))
            && (!own && !other && SeamKey(a, mine).Some? ==> (SeamKey(a, mine) == SeamKey(b, mine) <==> a.wire == b.wire))
            && (!own ==> (SeamKey(a, mine).None? <==> a.wire.None? || a.wire.value == ""))
  {
    var x, y := "mine\n" + a.kind + "\n" + a.text, "mine\n" + b.kind + "\n" + b.text;
    assert x[5..] == a.kind + "\n" + a.text && y[5..] == b.kind + "\n" + b.text;
    if x == y {
      LinesApart(a.kind, a.text, b.kind, b.text);
    }
  }

  lemma {:induction false} LinesApart(a: string, x: string, b: string, y: string)
    requires '\n' !in a && '\n' !in b && a + "\n" + x == b + "\n" + y
    ensures a == b && x == y
  {
    var s, t := a + "\n" + x, b + "\n" + y;
    FirstLine(a, x);
    FirstLine(b, y);
    assert s[..|a|] == a && t[..|b|] == b && s[|a| + 1..] == x && t[|b| + 1..] == y;
  }

  lemma {:induction false} FirstLine(a: string, x: string)
    requires '\n' !in a
    ensures PositionOf(a + "\n" + x, '\n') == |a|
  {
    if a != [] {
      assert (a + "\n" + x)[1..] == a[1..] + "\n" + x;
      FirstLine(a[1..], x);
    }
  }

  function LiveKeys(live: seq<Row>, mine: string -> bool): seq<string> {
    if live == [] then []
    else
      var key := SeamKey(live[0], mine);
      (if key.Some? then [key.value] else []) + LiveKeys(live[1..], mine)
  }

  /** The last `size` rows of the history are the first of the live ones. */
  predicate Overlaps(history: seq<Row>, keys: seq<string>, mine: string -> bool, size: nat) {
    && size <= |history| && size <= |keys|
    && forall i | 0 <= i < size :: SeamKey(history[|history| - size + i], mine) == Some(keys[i])
  }

  /** The longest overlap. */
  ghost predicate IsOverlap(history: seq<Row>, keys: seq<string>, mine: string -> bool, size: nat) {
    Overlaps(history, keys, mine, size) && forall larger | size < larger :: !Overlaps(history, keys, mine, larger)
  }

  method LongestOverlap(history: seq<Row>, keys: seq<string>, mine: string -> bool) returns (overlap: nat)
    ensures IsOverlap(history, keys, mine, overlap)
  {
    overlap := 0;
    var maximum := if |history| < |keys| then |history| else |keys|;
    var size := 1;
    while size <= maximum
      invariant 1 <= size <= maximum + 1
      invariant overlap < size && Overlaps(history, keys, mine, overlap)
      invariant forall other | overlap < other < size :: !Overlaps(history, keys, mine, other)
    {
      var matches := true;
      var index := 0;
      while index < size
        invariant 0 <= index <= size
        invariant matches <==> forall i | 0 <= i < index :: SeamKey(history[|history| - size + i], mine) == Some(keys[i])
      {
        if SeamKey(history[|history| - size + index], mine) != Some(keys[index]) {
          matches := false;
          assert !Overlaps(history, keys, mine, size);
          break;
        }
        index := index + 1;
      }
      if matches {
        overlap := size;
      }
      size := size + 1;
    }
  }

  method Keys(live: seq<Row>, mine: string -> bool) returns (keys: seq<string>)
    ensures keys == LiveKeys(live, mine)
  {
    keys := [];
    var todo := live;
    assert [] + LiveKeys(live, mine) == LiveKeys(live, mine);
    while todo != []
      invariant keys + LiveKeys(todo, mine) == LiveKeys(live, mine)
    {
      var key := SeamKey(todo[0], mine);
      if key.Some? {
        assert keys + ([key.value] + LiveKeys(todo[1..], mine)) == keys + [key.value] + LiveKeys(todo[1..], mine);
        keys := keys + [key.value];
      }
      todo := todo[1..];
    }
  }

  /** Older rows before the live ones, for history no position bounds: its longest
      overlap with the live rows is left out, and of the rest whatever has the
      identity of a row after it; the live rows follow as they are, and the cap
      falls on the oldest. */
  method MergeTimeline(history: seq<Row>, live: seq<Row>, limit: nat, mine: string -> bool) returns (rows: seq<Row>, overlap: nat)
    ensures IsOverlap(history, LiveKeys(live, mine), mine, overlap)
    ensures rows == Newest(Survivors(history[..|history| - overlap], Identities(live)) + live, limit)
  {
    var keys := Keys(live, mine);
    var size := LongestOverlap(history, keys, mine);
    overlap := size;
    KeptAreSurvivors(history[..|history| - size], Identities(live));
    rows := PrependHistory(history[..|history| - size], live, limit);
  }
}
