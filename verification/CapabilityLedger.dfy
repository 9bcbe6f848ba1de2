/**
  What a connection knows of capabilities after registration: what the server
  offers, what is enabled, what was asked for and not yet answered, and what was
  refused. The server says what it likes; the ledger follows it.
 */
module CapabilityLedger {
  import opened Wrappers

  const MAX_ADVERTISED_CAPABILITIES: nat := 256
  const METADATA: seq<string> := ["server-time", "message-tags", "account-tag"]

  // ---- `name[=value]` tokens

  function NameOf(token: string): string {
    token[..PositionOf(token, '=')]
  }

  /** A capability's name holds no `=`. */
  predicate IsName(c: string) {
    PositionOf(c, '=') == |c|
  }

  function ValueOf(token: string): Option<string> {
    if PositionOf(token, '=') == |token| then None else Some(token[PositionOf(token, '=') + 1..])
  }

  // ---- the ledger as a value

  datatype Ledger = Ledger(
    advertised: map<string, Option<string>>,
    enabled: set<string>,
    awaiting: seq<string>,
    refused: seq<string>,
    /** What the program wants when it is offered, beside the metadata. */
    optional: seq<string>)

  /** One line from the server: a `CAP` subcommand with its list, the 410 that
      refuses a malformed `CAP`, or anything else. */
  datatype Line = New(list: seq<string>) | Del(list: seq<string>) | Ack(list: seq<string>) | Nak(list: seq<string>)
                | InvalidCap | Unrelated

  /** The table with a list's offers recorded, up to the first that would make it
      too large. */
  function Recorded(table: map<string, Option<string>>, list: seq<string>): (r: map<string, Option<string>>)
    ensures |table| <= MAX_ADVERTISED_CAPABILITIES ==> |r| <= MAX_ADVERTISED_CAPABILITIES
    ensures table.Keys <= r.Keys
    ensures forall c :: c in r ==> c in table || exists token :: token in list && NameOf(token) == c
    decreases |list|
  {
    if list == [] then table
    else
      var name := NameOf(list[0]);
      if name !in table && |table| >= MAX_ADVERTISED_CAPABILITIES then table
      else
        var r := Recorded(table[name := ValueOf(list[0])], list[1..]);
        assert list[0] in list;
        r
  }

  /** Whether recording a list stops at an offer that would make the table too
      large. */
  predicate Overflows(table: map<string, Option<string>>, list: seq<string>)
    decreases |list|
  {
    && list != []
    && var name := NameOf(list[0]);
       (name !in table && |table| >= MAX_ADVERTISED_CAPABILITIES) || Overflows(table[name := ValueOf(list[0])], list[1..])
  }

  function Named(list: seq<string>): set<string> {
    set token | token in list :: NameOf(token)
  }

  /** A list overflows the table exactly when table and list together name too
      many; otherwise all it names is recorded. */
  lemma {:induction false} OverflowsIff(table: map<string, Option<string>>, list: seq<string>)
    requires |table| <= MAX_ADVERTISED_CAPABILITIES
    ensures Overflows(table, list) <==> |table.Keys + Named(list)| > MAX_ADVERTISED_CAPABILITIES
    ensures !Overflows(table, list) ==> Recorded(table, list).Keys == table.Keys + Named(list)
    decreases |list|
  {
    if list == [] {
      assert table.Keys + Named(list) == table.Keys;
    } else {
      OneRecorded(table, list);
      if NameOf(list[0]) in table || |table| < MAX_ADVERTISED_CAPABILITIES {
        OverflowsIff(table[NameOf(list[0]) := ValueOf(list[0])], list[1..]);
      }
    }
  }

  lemma {:induction false} OneRecorded(table: map<string, Option<string>>, list: seq<string>)
    requires list != []
    ensures var next := table[NameOf(list[0]) := ValueOf(list[0])];
            && next.Keys + Named(list[1..]) == table.Keys + Named(list)
            && |next| == |table| + (if NameOf(list[0]) in table then 0 else 1) <= |table.Keys + Named(list)|
  {
    NamedApart(list);
    OneKey(table, NameOf(list[0]), ValueOf(list[0]), Named(list[1..]));
  }

  lemma {:induction false} OneKey(table: map<string, Option<string>>, name: string, value: Option<string>, rest: set<string>)
    ensures table[name := value].Keys + rest == table.Keys + ({name} + rest)
    ensures |table[name := value]| == |table| + (if name in table then 0 else 1) <= |table.Keys + ({name} + rest)|
  {
    Keys(table, name, value);
    OneElement(table.Keys, name, rest);
  }

  lemma {:induction false} Keys(table: map<string, Option<string>>, name: string, value: Option<string>)
    ensures table[name := value].Keys == table.Keys + {name}
    ensures |table[name := value]| == |table.Keys + {name}| && |table| == |table.Keys|
  {
    assert table[name := value].Keys == table.Keys + {name};
  }

  lemma {:induction false} OneElement(keys: set<string>, name: string, rest: set<string>)
    ensures keys + {name} + rest == keys + ({name} + rest)
    ensures |keys + {name}| == |keys| + (if name in keys then 0 else 1) <= |keys + ({name} + rest)|
  {
    assert name in keys ==> keys + {name} == keys;
    Fewer(keys + {name}, keys + ({name} + rest));
  }

  lemma {:induction false} NamedApart(list: seq<string>)
    requires list != []
    ensures Named(list) == {NameOf(list[0])} + Named(list[1..])
  {
    assert list == [list[0]] + list[1..];
  }

  lemma {:induction false} Fewer(a: set<string>, b: set<string>)
    requires a <= b
    ensures |a| <= |b|
  {
    if a != {} {
      var x :| x in a;
      Fewer(a - {x}, b - {x});
    }
  }

  function Without(names: seq<string>, list: seq<string>): (r: seq<string>)
    ensures forall c :: c in r <==> c in names && c !in list
  {
    if names == [] then []
    else if names[0] in list then Without(names[1..], list)
    else [names[0]] + Without(names[1..], list)
  }

  function Position(names: seq<string>, name: string): (at: nat)
    requires name in names
    ensures at < |names| && names[at] == name
  {
    if names[0] == name then 0 else 1 + Position(names[1..], name)
  }

  /** `names` without the one at `at`, the last taking its place. */
  function SwapRemove(names: seq<string>, at: nat): seq<string>
    requires at < |names|
  {
    names[at := names[|names| - 1]][..|names| - 1]
  }

  /** A verdict on the names of `list` that are still waiting for one. */
  function Answered(l: Ledger, list: seq<string>, ack: bool): Ledger
    decreases |list|
  {
    if list == [] then l
    else
      var name := list[0];
      if name !in l.awaiting then Answered(l, list[1..], ack)
      else
        var waiting := SwapRemove(l.awaiting, Position(l.awaiting, name));
        Answered(if ack then l.(awaiting := waiting, enabled := l.enabled + {name})
                 else l.(awaiting := waiting, refused := l.refused + [name]), list[1..], ack)
  }

  function Observed(l: Ledger, line: Line): Ledger {
    match line
    case New(list) => l.(advertised := Recorded(l.advertised, list), refused := Without(l.refused, list))
    case Del(list) => l.(advertised := l.advertised - (set c | c in list), enabled := l.enabled - (set c | c in list))
    case Ack(list) => Answered(l, list, true)
    case Nak(list) => Answered(l, list, false)
    case _ => l
  }

  predicate PrerequisiteEnabled(l: Ledger, c: string) {
    c == "labeled-response" ==> "batch" in l.enabled
  }

  predicate IsWanted(l: Ledger, c: string) {
    && c in l.advertised
    && c !in l.enabled
    && c !in l.awaiting
    && c !in l.refused
    && PrerequisiteEnabled(l, c)
  }

  function Wanted(l: Ledger, names: seq<string>): (r: seq<string>)
    ensures forall c :: c in r <==> c in names && IsWanted(l, c)
  {
    if names == [] then []
    else if IsWanted(l, names[0]) then [names[0]] + Wanted(l, names[1..])
    else Wanted(l, names[1..])
  }

  function Wishes(l: Ledger): seq<string> {
    METADATA + l.optional
  }

  function Handed(l: Ledger): seq<string> {
    Wanted(l, Wishes(l))
  }

  /** What a line means to a request for `names` still waiting: a verdict, none,
      or a malformed one that omits a name. */
  datatype Verdict = Acknowledged | Refused | NoVerdict | Omits

  function VerdictOn(line: Line, names: seq<string>): Verdict {
    match line
    case InvalidCap => Refused
    case Ack(list) => if forall i | 0 <= i < |names| :: names[i] in list then Acknowledged else Omits
    case Nak(list) => if forall i | 0 <= i < |names| :: names[i] in list then Refused else Omits
    case _ => NoVerdict
  }

  function Settled(l: Ledger, line: Line, names: seq<string>): Ledger {
    match VerdictOn(line, names)
    case Acknowledged => l.(enabled := l.enabled + (set c | c in names))
    case Refused => l.(refused := l.refused + names)
    case _ => l
  }

  function WishedFor(l: Ledger, c: string): Ledger {
    if c in l.optional then l else l.(optional := l.optional + [c])
  }

  // ---- the ledger as the connection keeps it

  class Connection {
    var advertised: map<string, Option<string>>
    var enabled: set<string>
    var awaiting: seq<string>
    var refused: seq<string>
    var optional: seq<string>

    ghost function View(): Ledger
      reads this
    {
      Ledger(advertised, enabled, awaiting, refused, optional)
    }

    constructor ()
      ensures View() == Ledger(map[], {}, [], [], [])
    {
      advertised, enabled, awaiting, refused, optional := map[], {}, [], [], [];
    }

    /** Fold a list's offers in; `false` once one would make the table too large,
        those before it kept. */
    method Record(list: seq<string>) returns (fits: bool)
      modifies this`advertised
      ensures advertised == Recorded(old(advertised), list)
      ensures fits == !Overflows(old(advertised), list)
    {
      var todo := list;
      while todo != []
        invariant Recorded(advertised, todo) == Recorded(old(advertised), list)
        invariant Overflows(advertised, todo) == Overflows(old(advertised), list)
      {
        var name := NameOf(todo[0]);
        if name !in advertised && |advertised| >= MAX_ADVERTISED_CAPABILITIES {
          return false;
        }
        advertised := advertised[name := ValueOf(todo[0])];
        todo := todo[1..];
      }
      return true;
    }

    /** Settle the names of a verdict that are still waiting for one. */
    method Answer(list: seq<string>, ack: bool)
      modifies this`awaiting, this`enabled, this`refused
      ensures View() == Answered(old(View()), list, ack)
    {
      var todo := list;
      while todo != []
        invariant Answered(View(), todo, ack) == Answered(old(View()), list, ack)
        invariant advertised == old(advertised) && optional == old(optional)
      {
        var name := todo[0];
        if name in awaiting {
          awaiting := SwapRemove(awaiting, Position(awaiting, name));
          if ack {
            enabled := enabled + {name};
          } else {
            refused := refused + [name];
          }
        }
        todo := todo[1..];
      }
    }

    /** Follow a capability change the server announces. */
    method Observe(line: Line)
      modifies this
      ensures View() == Observed(old(View()), line)
    {
      match line
      case New(list) =>
        var fits := Record(list);
        refused := Without(refused, list);
      case Del(list) =>
        var gone := set c | c in list;
        advertised := advertised - gone;
        enabled := enabled - gone;
      case Ack(list) => Answer(list, true);
      case Nak(list) => Answer(list, false);
      case _ =>
    }

    /** What is wanted, offered, and neither enabled, refused nor asked for: each
        to be requested now. */
    method CapabilitiesToRequest() returns (wanted: seq<string>)
      modifies this`awaiting
      ensures wanted == Handed(old(View()))
      ensures View() == old(View()).(awaiting := old(awaiting) + wanted)
    {
      wanted := [];
      var todo := METADATA + optional;
      ghost var l := View();
      assert [] + Wanted(l, todo) == Wanted(l, todo);
      while todo != []
        invariant View() == l
        invariant wanted + Wanted(l, todo) == Handed(l)
      {
        var c := todo[0];
        if c in advertised && c !in enabled && c !in awaiting && c !in refused
           && (c == "labeled-response" ==> "batch" in enabled) {
          assert wanted + ([c] + Wanted(l, todo[1..])) == wanted + [c] + Wanted(l, todo[1..]);
          wanted := wanted + [c];
        }
        todo := todo[1..];
      }
      awaiting := awaiting + wanted;
    }

    /** Read `line` as the verdict on one outstanding request. */
    method Settle(line: Line, names: seq<string>) returns (verdict: Verdict)
      modifies this`enabled, this`refused
      ensures verdict == VerdictOn(line, names)
      ensures View() == Settled(old(View()), line, names)
    {
      verdict := VerdictOn(line, names);
      match verdict
      case Acknowledged => enabled := enabled + (set c | c in names);
      case Refused => refused := refused + names;
      case _ =>
    }

    /** Ask for `c` whenever it is offered. */
    method RequestWhenOffered(c: string)
      modifies this`optional
      ensures View() == WishedFor(old(View()), c)
    {
      if c !in optional {
        optional := optional + [c];
      }
    }
  }

  // ---- runs

  /** What can happen after registration: a line is read; the program asks what
      to request; a line is read while `names` are required; the program wishes
      for one more. */
  datatype Event = Heard(line: Line) | Asked | HeardRequiring(line: Line, names: seq<string>) | Wished(name: string)

  function After(l: Ledger, e: Event): Ledger {
    match e
    case Heard(line) => Observed(l, line)
    case Asked => l.(awaiting := l.awaiting + Handed(l))
    case HeardRequiring(line, names) => Settled(Observed(l, line), line, names)
    case Wished(name) => WishedFor(l, name)
  }

  function AfterAll(l: Ledger, run: seq<Event>): Ledger
    decreases |run|
  {
    if run == [] then l else AfterAll(After(l, run[0]), run[1..])
  }

  function Occurrences(names: seq<string>, c: string): nat {
    if names == [] then 0 else (if names[0] == c then 1 else 0) + Occurrences(names[1..], c)
  }

  /** How many times `c` is handed out for a request. */
  function HandedOut(l: Ledger, run: seq<Event>, c: string): nat
    decreases |run|
  {
    if run == [] then 0
    else (if run[0].Asked? then Occurrences(Handed(l), c) else 0) + HandedOut(After(l, run[0]), run[1..], c)
  }

  function LineOf(e: Event): Line {
    if e.Heard? || e.HeardRequiring? then e.line else Unrelated
  }

  predicate Offers(line: Line, c: string) {
    line.New? && exists i | 0 <= i < |line.list| :: NameOf(line.list[i]) == c
  }

  /** How many `CAP NEW` lines name `c`. */
  function Offered(run: seq<Event>, c: string): nat {
    if run == [] then 0 else (if Offers(LineOf(run[0]), c) then 1 else 0) + Offered(run[1..], c)
  }

  // ---- no REQ and NAK are traded without end

  predicate Distinct(names: seq<string>) {
    names == [] || (names[0] !in names[1..] && Distinct(names[1..]))
  }

  /** Whether `c` could be handed out, its prerequisite aside. */
  function Open(l: Ledger, c: string): nat {
    if c in l.advertised && c !in l.enabled && c !in l.awaiting && c !in l.refused then 1 else 0
  }

  lemma {:induction false} OnceAtMost(l: Ledger, names: seq<string>, c: string)
    requires Distinct(names)
    ensures Occurrences(Wanted(l, names), c) <= if c in names && IsWanted(l, c) then 1 else 0
  {
    if names != [] {
      OnceAtMost(l, names[1..], c);
    }
  }

  lemma {:induction false} InPosition(names: seq<string>, name: string, c: string)
    requires name in names
    ensures c in SwapRemove(names, Position(names, name)) ==> c in names
    ensures c in names && c != name ==> c in SwapRemove(names, Position(names, name))
  {
    var at, last := Position(names, name), |names| - 1;
    var r := SwapRemove(names, at);
    if c in r {
      var i :| 0 <= i < |r| && r[i] == c;
      assert c == if i == at then names[last] else names[i];
    }
    if c in names && c != name {
      var i :| 0 <= i < |names| && names[i] == c;
      assert r[if i == last then at else i] == c;
    }
  }

  /** A verdict moves what it answers from waiting to enabled or refused, and
      nothing else. */
  lemma {:induction false} AnswerMoves(l: Ledger, list: seq<string>, ack: bool, c: string)
    ensures var r := Answered(l, list, ack);
            && r.advertised == l.advertised && r.optional == l.optional
            && (c in l.enabled ==> c in r.enabled) && (c in l.refused ==> c in r.refused)
            && (c in l.awaiting ==> c in r.awaiting || c in r.enabled || c in r.refused)
            && (c in r.enabled ==> c in l.enabled || c in l.awaiting)
            && (c in r.awaiting ==> c in l.awaiting)
    decreases |list|
  {
    if list != [] {
      var name := list[0];
      if name !in l.awaiting {
        AnswerMoves(l, list[1..], ack, c);
      } else {
        InPosition(l.awaiting, name, c);
        var waiting := SwapRemove(l.awaiting, Position(l.awaiting, name));
        AnswerMoves(if ack then l.(awaiting := waiting, enabled := l.enabled + {name})
                    else l.(awaiting := waiting, refused := l.refused + [name]), list[1..], ack, c);
      }
    }
  }

  lemma {:induction false} ObserveOpens(l: Ledger, line: Line, c: string)
    requires IsName(c)
    ensures Open(Observed(l, line), c) <= Open(l, c) + if Offers(line, c) then 1 else 0
  {
    match line
    case New(list) =>
      if !Offers(line, c) {
        NotNamed(list, c);
      }
    case Ack(list) => AnswerMoves(l, list, true, c);
    case Nak(list) => AnswerMoves(l, list, false, c);
    case _ =>
  }

  lemma {:induction false} NotNamed(list: seq<string>, c: string)
    requires !Offers(New(list), c)
    ensures forall token | token in list :: NameOf(token) != c
    ensures IsName(c) ==> c !in list
  {
    if c in list {
      assert NameOf(c) != c;
    }
  }

  /** One step hands `c` out only where it was open, and only a `CAP NEW` that
      names it opens it. */
  lemma {:induction false} StepPays(l: Ledger, e: Event, c: string)
    requires Distinct(Wishes(l)) && IsName(c)
    ensures Open(After(l, e), c) + (if e.Asked? then Occurrences(Handed(l), c) else 0)
         <= Open(l, c) + if Offers(LineOf(e), c) then 1 else 0
  {
    match e
    case Heard(line) => ObserveOpens(l, line, c);
    case Asked => OnceAtMost(l, Wishes(l), c);
    case HeardRequiring(line, names) => ObserveOpens(l, line, c);
    case Wished(name) =>
  }

  /** The wish list stays free of repeats along the run. */
  ghost predicate WishesOnce(l: Ledger, run: seq<Event>)
    decreases |run|
  {
    Distinct(Wishes(l)) && (run == [] || WishesOnce(After(l, run[0]), run[1..]))
  }

  /** Over any run, a capability is handed out at most once more than the number
      of `CAP NEW` lines that name it, and no more often than that when it was
      not open to begin with. */
  lemma {:induction false} NoRequestLoop(l: Ledger, run: seq<Event>, c: string)
    requires WishesOnce(l, run) && IsName(c)
    ensures HandedOut(l, run, c) + Open(AfterAll(l, run), c) <= Open(l, c) + Offered(run, c)
    decreases |run|
  {
    if run != [] {
      StepPays(l, run[0], c);
      NoRequestLoop(After(l, run[0]), run[1..], c);
    }
  }

  /** A ledger with nothing in it yet. */
  function Beginning(optional: seq<string>): Ledger {
    Ledger(map[], {}, [], [], optional)
  }

  /** With a metadata name on the optional list as well, one offer is handed out
      twice at once. */
  lemma {:induction false} RepeatIsHandedTwice(optional: seq<string>, c: string)
    requires c in METADATA && c in optional
    ensures Offered(OfferedThenAsked(c), c) == 1 && HandedOut(Beginning(optional), OfferedThenAsked(c), c) >= 2
    ensures WaitsTwice(AfterAll(Beginning(optional), OfferedThenAsked(c)), c)
  {
    NamesAreNames(c);
    var l := Observed(Beginning(optional), New([c]));
    JustOffered(optional, c);
    TwiceWanted(l, c);
    TwoEvents(Beginning(optional), Heard(New([c])), Asked, c);
    assert New([c]).list[0] == c && Offers(New([c]), c);
    AskedAtFirst(l, c);
  }

  lemma {:induction false} AskedAtFirst(l: Ledger, c: string)
    requires l.awaiting == []
    ensures Occurrences(After(l, Asked).awaiting, c) == Occurrences(Handed(l), c)
  {
    assert [] + Handed(l) == Handed(l);
  }

  /** `c` is waited on more than once. */
  predicate WaitsTwice(l: Ledger, c: string) {
    Occurrences(l.awaiting, c) >= 2
  }

  function OfferedThenAsked(c: string): seq<Event> {
    [Heard(New([c])), Asked]
  }

  lemma {:induction false} JustOffered(optional: seq<string>, c: string)
    requires IsName(c) && c != "labeled-response"
    ensures var l := Observed(Beginning(optional), New([c]));
            l.optional == optional && IsWanted(l, c)
  {
    var none: map<string, Option<string>> := map[];
    assert NameOf([c][0]) == c && [c][1..] == [];
    assert |none| == 0 && c in Recorded(none[c := ValueOf(c)], []);
    assert Recorded(none, [c]) == Recorded(none[c := ValueOf(c)], []);
  }

  lemma {:induction false} TwiceWanted(l: Ledger, c: string)
    requires c in METADATA && c in l.optional && IsWanted(l, c)
    ensures Occurrences(Handed(l), c) >= 2
  {
    CountWanted(l, METADATA, c);
    CountWanted(l, l.optional, c);
    WantedOfBoth(l, METADATA, l.optional, c);
  }

  lemma {:induction false} TwoEvents(l: Ledger, first: Event, second: Event, c: string)
    requires !first.Asked? && second.Asked?
    ensures HandedOut(l, [first, second], c) == Occurrences(Handed(After(l, first)), c)
    ensures Offered([first, second], c) == if Offers(LineOf(first), c) then 1 else 0
    ensures AfterAll(l, [first, second]) == After(After(l, first), second)
  {
    var run := [first, second];
    var later := After(After(l, first), second);
    assert run[1..] == [second] && [second][1..] == [];
    assert HandedOut(later, [], c) == 0 && Offered([], c) == 0 && AfterAll(later, []) == later;
    assert AfterAll(After(l, first), [second]) == AfterAll(later, []);
    assert HandedOut(After(l, first), [second], c) == Occurrences(Handed(After(l, first)), c) + HandedOut(later, [], c);
    assert Offered([second], c) == (if Offers(LineOf(second), c) then 1 else 0) + Offered([], c);
  }

  lemma {:induction false} NamesAreNames(c: string)
    requires c in METADATA
    ensures IsName(c) && c != "labeled-response"
  {
    NoEquals(c);
    Plain(c);
  }

  lemma {:induction false} NoEquals(c: string)
    requires c in METADATA
    ensures '=' !in c && |c| < 16
  {
    assert c == METADATA[0] || c == METADATA[1] || c == METADATA[2];
  }

  lemma {:induction false} Plain(c: string)
    requires '=' !in c
    ensures IsName(c)
  {
    if c != [] {
      Plain(c[1..]);
    }
  }

  lemma {:induction false} CountWanted(l: Ledger, names: seq<string>, c: string)
    requires c in names && IsWanted(l, c)
    ensures Occurrences(Wanted(l, names), c) >= 1
  {
    if names[0] != c {
      CountWanted(l, names[1..], c);
    }
  }

  lemma {:induction false} WantedOfBoth(l: Ledger, a: seq<string>, b: seq<string>, c: string)
    ensures Occurrences(Wanted(l, a + b), c) == Occurrences(Wanted(l, a), c) + Occurrences(Wanted(l, b), c)
  {
    if a == [] {
      assert a + b == b;
    } else {
      WantedOfBoth(l, a[1..], b, c);
      assert (a + b)[1..] == a[1..] + b;
    }
  }

  /** A wish list without repeats of its own, as `WishedFor` keeps it, repeats
      nothing as long as it names no metadata. */
  lemma {:induction false} WishListOnce(optional: seq<string>)
    requires Distinct(optional) && forall c | c in METADATA :: c !in optional
    ensures Distinct(METADATA + optional)
  {
    var a, b, c := METADATA[0], METADATA[1], METADATA[2];
    var whole := METADATA + optional;
    assert whole[1..] == [b, c] + optional && whole[1..][1..] == [c] + optional;
    assert whole[1..][1..][1..] == optional;
    assert a in METADATA && b in METADATA && c in METADATA;
    assert a != b && a != c && b != c by {
      assert |a| == 11 && |b| == 12 && |c| == 11 && a[0] == 's' && c[0] == 'a';
    }
  }

  /** The bound holds over every run that wishes for nothing beyond `more` exactly
      when neither the optional list nor `more` names metadata. */
  lemma {:induction false} NoRequestLoopIff(optional: seq<string>, more: set<string>)
    requires Distinct(optional)
    ensures NoMetadata(optional, more)
       <==> (forall run, c | WishesWithin(run, more) && IsName(c) :: HandedOut(Beginning(optional), run, c) <= Offered(run, c))
  {
    if NoMetadata(optional, more) {
      WishListOnce(optional);
      forall run, c | WishesWithin(run, more) && IsName(c)
        ensures HandedOut(Beginning(optional), run, c) <= Offered(run, c)
      {
        StillOnce(Beginning(optional), run, more);
        NoRequestLoop(Beginning(optional), run, c);
      }
    } else {
      var c, run := Repeating(optional, more);
      NamesAreNames(c);
      assert WishesWithin(run, more) && HandedOut(Beginning(optional), run, c) > Offered(run, c);
    }
  }

  /** Neither list repeats the metadata that is wanted anyway. */
  predicate NoMetadata(optional: seq<string>, more: set<string>) {
    forall c | c in METADATA :: c !in optional && c !in more
  }

  ghost predicate WishesWithin(run: seq<Event>, more: set<string>) {
    forall e | e in run :: e.Wished? ==> e.name in more
  }

  lemma {:induction false} StillOnce(l: Ledger, run: seq<Event>, more: set<string>)
    requires Distinct(Wishes(l)) && WishesWithin(run, more) && NoMetadata([], more)
    ensures WishesOnce(l, run)
    decreases |run|
  {
    if run != [] {
      assert run[0] in run;
      if run[0].Wished? {
        WishOnce(l, run[0].name);
      } else {
        SameWishes(l, run[0]);
      }
      StillOnce(After(l, run[0]), run[1..], more);
    }
  }

  lemma {:induction false} WishOnce(l: Ledger, name: string)
    requires Distinct(Wishes(l)) && name !in METADATA
    ensures Distinct(Wishes(WishedFor(l, name)))
  {
    if name !in l.optional {
      assert Wishes(WishedFor(l, name)) == Wishes(l) + [name];
      JoinDistinct(Wishes(l), [name]);
    }
  }

  /** Where metadata may be wished for, a run that offers it once, asks, and is
      handed it twice. */
  lemma {:induction false} Repeating(optional: seq<string>, more: set<string>) returns (c: string, run: seq<Event>)
    requires !NoMetadata(optional, more)
    ensures c in METADATA && WishesWithin(run, more)
    ensures HandedOut(Beginning(optional), run, c) >= 2 > 1 == Offered(run, c)
    ensures WaitsTwice(AfterAll(Beginning(optional), run), c)
  {
    c :| c in METADATA && (c in optional || c in more);
    run := OfferedThenAsked(c);
    if c in optional {
      RepeatIsHandedTwice(optional, c);
    } else {
      run := [Wished(c)] + OfferedThenAsked(c);
      RepeatIsHandedTwice(optional + [c], c);
      AfterAWish(optional, c, OfferedThenAsked(c));
    }
  }

  lemma {:induction false} AfterAWish(optional: seq<string>, c: string, run: seq<Event>)
    requires c !in optional
    ensures AfterAll(Beginning(optional), [Wished(c)] + run) == AfterAll(Beginning(optional + [c]), run)
    ensures HandedOut(Beginning(optional), [Wished(c)] + run, c) == HandedOut(Beginning(optional + [c]), run, c)
    ensures Offered([Wished(c)] + run, c) == Offered(run, c)
  {
    assert ([Wished(c)] + run)[1..] == run;
    assert After(Beginning(optional), Wished(c)) == Beginning(optional + [c]);
  }

  lemma {:induction false} SameWishes(l: Ledger, e: Event)
    requires !e.Wished?
    ensures After(l, e).optional == l.optional
  {
    var line := LineOf(e);
    if line.Ack? || line.Nak? {
      AnswerMoves(l, line.list, line.Ack?, "");
    }
  }

  // ---- what every run keeps

  /** Only what was asked for is enabled or waited on, and the server cannot make
      the table large. */
  ghost predicate Within(l: Ledger, asked: set<string>) {
    && l.enabled <= asked
    && (forall c | c in Wishes(l) :: c in asked)
    && (forall c | c in l.awaiting :: c in asked)
    && |l.advertised| <= MAX_ADVERTISED_CAPABILITIES
  }

  /** The events of a program that asks for nothing but `asked`. */
  ghost predicate AsksOnly(e: Event, asked: set<string>) {
    && (e.HeardRequiring? ==> forall c | c in e.names :: c in asked)
    && (e.Wished? ==> e.name in asked)
  }

  lemma {:induction false} StepKeeps(l: Ledger, e: Event, asked: set<string>)
    requires Within(l, asked) && AsksOnly(e, asked)
    ensures Within(After(l, e), asked)
  {
    match e
    case Heard(line) => ObserveKeeps(l, line, asked);
    case HeardRequiring(line, names) => ObserveKeeps(l, line, asked);
    case _ =>
  }

  lemma {:induction false} ObserveKeeps(l: Ledger, line: Line, asked: set<string>)
    requires Within(l, asked)
    ensures Within(Observed(l, line), asked)
  {
    if line.Ack? || line.Nak? {
      forall c ensures c in Observed(l, line).enabled || c in Observed(l, line).awaiting ==> c in asked {
        AnswerMoves(l, line.list, line.Ack?, c);
      }
      AnswerMoves(l, line.list, line.Ack?, "");
    } else if line.Del? {
      Smaller(l.advertised, set c | c in line.list);
    }
  }

  /** Over every run, whatever the server says, only what was asked for is enabled
      or waited on. */
  lemma {:induction false} RunKeeps(l: Ledger, run: seq<Event>, asked: set<string>)
    requires Within(l, asked) && forall e | e in run :: AsksOnly(e, asked)
    ensures Within(AfterAll(l, run), asked)
    decreases |run|
  {
    if run != [] {
      StepKeeps(l, run[0], asked);
      RunKeeps(After(l, run[0]), run[1..], asked);
    }
  }

  lemma {:induction false} Smaller(table: map<string, Option<string>>, gone: set<string>)
    ensures |table - gone| <= |table|
  {
    var left := (table - gone).Keys;
    assert left <= table.Keys;
    Fewer(left, table.Keys);
    assert |table - gone| == |left| && |table| == |table.Keys|;
  }

  // ---- nothing is waited on twice, or when enabled

  /** Nothing is both enabled and waited on, and nothing is waited on twice. */
  predicate Settling(l: Ledger) {
    Distinct(l.awaiting) && forall c | c in l.awaiting :: c !in l.enabled
  }

  lemma {:induction false} DistinctIndices(names: seq<string>)
    ensures Distinct(names) <==> forall i, j | 0 <= i < j < |names| :: names[i] != names[j]
  {
    if names != [] {
      DistinctIndices(names[1..]);
      if Distinct(names) {
        forall i, j | 0 <= i < j < |names| ensures names[i] != names[j] {
          assert names[j] == names[1..][j - 1];
          if i > 0 {
            assert names[i] == names[1..][i - 1];
          }
        }
      }
      if forall i, j | 0 <= i < j < |names| :: names[i] != names[j] {
        assert forall j | 0 <= j < |names| - 1 :: names[1..][j] == names[j + 1];
      }
    }
  }

  lemma {:induction false} RemovedOnce(names: seq<string>, name: string)
    requires Distinct(names) && name in names
    ensures var r := SwapRemove(names, Position(names, name));
            Distinct(r) && name !in r
  {
    DistinctIndices(names);
    DistinctIndices(SwapRemove(names, Position(names, name)));
  }

  /** A verdict settles every name it lists. */
  lemma {:induction false} AnswerSettles(l: Ledger, list: seq<string>, ack: bool)
    requires Distinct(l.awaiting) && forall c | c in l.awaiting :: c !in l.enabled
    ensures var r := Answered(l, list, ack);
            && Distinct(r.awaiting)
            && (forall c | c in r.awaiting :: c in l.awaiting && c !in r.enabled && c !in list)
    decreases |list|
  {
    if list != [] {
      var name := list[0];
      if name !in l.awaiting {
        AnswerSettles(l, list[1..], ack);
      } else {
        RemovedOnce(l.awaiting, name);
        forall c ensures c in SwapRemove(l.awaiting, Position(l.awaiting, name)) ==> c in l.awaiting {
          InPosition(l.awaiting, name, c);
        }
        var waiting := SwapRemove(l.awaiting, Position(l.awaiting, name));
        AnswerSettles(if ack then l.(awaiting := waiting, enabled := l.enabled + {name})
                      else l.(awaiting := waiting, refused := l.refused + [name]), list[1..], ack);
      }
    }
  }

  lemma {:induction false} ObserveSettles(l: Ledger, line: Line)
    requires Settling(l)
    ensures Settling(Observed(l, line))
    ensures line.Ack? ==> forall c | c in line.list :: c !in Observed(l, line).awaiting
  {
    if line.Ack? || line.Nak? {
      AnswerSettles(l, line.list, line.Ack?);
    }
  }

  lemma {:induction false} HandedAreDistinct(l: Ledger, names: seq<string>)
    requires Distinct(names)
    ensures Distinct(Wanted(l, names))
  {
    if names != [] {
      HandedAreDistinct(l, names[1..]);
      if IsWanted(l, names[0]) {
        assert Wanted(l, names)[1..] == Wanted(l, names[1..]);
      }
    }
  }

  lemma {:induction false} JoinDistinct(a: seq<string>, b: seq<string>)
    requires Distinct(a) && Distinct(b) && forall c | c in b :: c !in a
    ensures Distinct(a + b)
  {
    DistinctIndices(a);
    DistinctIndices(b);
    DistinctIndices(a + b);
    var r := a + b;
    forall i, j | 0 <= i < j < |r| ensures r[i] != r[j] {
      assert r[i] == if i < |a| then a[i] else b[i - |a|];
      assert r[j] == if j < |a| then a[j] else b[j - |a|];
      assert i < |a| ==> r[i] in a;
      assert j >= |a| ==> r[j] in b;
    }
  }

  lemma {:induction false} StepSettles(l: Ledger, e: Event)
    requires Settling(l) && Distinct(Wishes(l))
    ensures Settling(After(l, e))
  {
    match e
    case Heard(line) => ObserveSettles(l, line);
    case Asked =>
      HandedAreDistinct(l, Wishes(l));
      JoinDistinct(l.awaiting, Handed(l));
    case HeardRequiring(line, names) =>
      ObserveSettles(l, line);
      RequireSettles(Observed(l, line), line, names);
    case Wished(name) =>
  }

  lemma {:induction false} RequireSettles(l: Ledger, line: Line, names: seq<string>)
    requires Settling(l) && (line.Ack? ==> forall c | c in line.list :: c !in l.awaiting)
    ensures Settling(Settled(l, line, names))
  {
    if VerdictOn(line, names) == Acknowledged {
      forall c | c in names ensures c !in l.awaiting {
        var i :| 0 <= i < |names| && names[i] == c;
        assert names[i] in line.list;
      }
    }
  }

  lemma {:induction false} RunSettles(l: Ledger, run: seq<Event>)
    requires Settling(l) && WishesOnce(l, run)
    ensures Settling(AfterAll(l, run))
    decreases |run|
  {
    if run != [] {
      StepSettles(l, run[0]);
      RunSettles(After(l, run[0]), run[1..]);
    }
  }

  lemma {:induction false} TwoPlaces(names: seq<string>, c: string, at: nat) returns (other: nat)
    requires Occurrences(names, c) >= 2
    ensures other < |names| && other != at && names[other] == c
    decreases |names|
  {
    if names[0] == c && at != 0 {
      other := 0;
    } else if at == 0 {
      other := Somewhere(names[1..], c);
      other := other + 1;
    } else {
      other := TwoPlaces(names[1..], c, at - 1);
      other := other + 1;
    }
  }

  lemma {:induction false} Somewhere(names: seq<string>, c: string) returns (at: nat)
    requires Occurrences(names, c) >= 1
    ensures at < |names| && names[at] == c
    decreases |names|
  {
    if names[0] == c {
      at := 0;
    } else {
      at := Somewhere(names[1..], c);
      at := at + 1;
    }
  }

  /** A name waited on twice is still waited on when one verdict enables it. */
  lemma {:induction false} EnabledAndWaiting(l: Ledger, c: string)
    requires WaitsTwice(l, c)
    ensures !Settling(l)
    ensures var after := Observed(l, Ack([c])); c in after.enabled && c in after.awaiting
  {
    var first := Somewhere(l.awaiting, c);
    var second := TwoPlaces(l.awaiting, c, first);
    DistinctIndices(l.awaiting);
    var at, last := Position(l.awaiting, c), |l.awaiting| - 1;
    var other := TwoPlaces(l.awaiting, c, at);
    var left := SwapRemove(l.awaiting, at);
    assert left[if other == last then at else other] == c;
    assert [c][1..] == [];
    assert Observed(l, Ack([c])) == Answered(l.(awaiting := left, enabled := l.enabled + {c}), [], true);
  }

  /** Over every run that wishes for nothing beyond `more`, nothing is waited on
      twice or when enabled, exactly when neither the optional list nor `more`
      names metadata. */
  lemma {:induction false} SettlingIff(optional: seq<string>, more: set<string>)
    requires Distinct(optional)
    ensures NoMetadata(optional, more)
       <==> (forall run | WishesWithin(run, more) :: Settling(AfterAll(Beginning(optional), run)))
  {
    if NoMetadata(optional, more) {
      WishListOnce(optional);
      forall run | WishesWithin(run, more) ensures Settling(AfterAll(Beginning(optional), run)) {
        StillOnce(Beginning(optional), run, more);
        RunSettles(Beginning(optional), run);
      }
    } else {
      var c, run := Repeating(optional, more);
      EnabledAndWaiting(AfterAll(Beginning(optional), run), c);
    }
  }

  // ---- what stands at the end of a run, from what happened in it

  /** None of these from the `i`th on. */
  predicate NoneFrom(marks: seq<bool>, i: nat) {
    forall j | i <= j < |marks| :: !marks[j]
  }

  /** Something that stood at the start or was set later, and was not cleared since. */
  predicate Stands(start: bool, sets: seq<bool>, clears: seq<bool>) {
    (start && NoneFrom(clears, 0)) || exists i | 0 <= i < |sets| :: sets[i] && NoneFrom(clears, i + 1)
  }

  lemma {:induction false} StandsIff(sets: seq<bool>, clears: seq<bool>, states: seq<bool>)
    requires |sets| == |clears| && |states| == |sets| + 1
    requires forall i | 0 <= i < |sets| :: states[i + 1] <==> sets[i] || (states[i] && !clears[i])
    ensures states[|sets|] <==> Stands(states[0], sets, clears)
  {
    if sets != [] {
      var n := |sets| - 1;
      StandsIff(sets[..n], clears[..n], states[..n + 1]);
      OneMoreStands(states[0], sets, clears);
    }
  }

  lemma {:induction false} OneMoreStands(start: bool, sets: seq<bool>, clears: seq<bool>)
    requires |sets| == |clears| > 0
    ensures var n := |sets| - 1;
            Stands(start, sets, clears) <==> sets[n] || (Stands(start, sets[..n], clears[..n]) && !clears[n])
  {
    var n := |sets| - 1;
    assert forall i: nat | i <= n :: NoneFrom(clears, i) <==> NoneFrom(clears[..n], i) && !clears[n];
    if sets[n] {
      assert NoneFrom(clears, n + 1);
    }
    if Stands(start, sets[..n], clears[..n]) && !clears[n] && !(start && NoneFrom(clears[..n], 0)) {
      var i :| 0 <= i < n && sets[..n][i] && NoneFrom(clears[..n], i + 1);
      assert sets[i] && NoneFrom(clears, i + 1);
    }
    if Stands(start, sets, clears) && !sets[n] && !(start && NoneFrom(clears, 0)) {
      var i :| 0 <= i < |sets| && sets[i] && NoneFrom(clears, i + 1);
      assert sets[..n][i] && NoneFrom(clears[..n], i + 1);
    }
  }

  /** The ledger before the `i`th event. */
  function Before(l: Ledger, run: seq<Event>, i: nat): Ledger
    requires i <= |run|
  {
    AfterAll(l, run[..i])
  }

  lemma {:induction false} BeforeNext(l: Ledger, run: seq<Event>, i: nat)
    requires i < |run|
    ensures Before(l, run, i + 1) == After(Before(l, run, i), run[i])
  {
    AfterOneMore(l, run[..i], run[i]);
    assert run[..i + 1] == run[..i] + [run[i]];
  }

  lemma {:induction false} AfterOneMore(l: Ledger, run: seq<Event>, e: Event)
    ensures AfterAll(l, run + [e]) == After(AfterAll(l, run), e)
    decreases |run|
  {
    if run == [] {
      assert run + [e] == [e] && [e][1..] == [];
      assert AfterAll(After(l, e), []) == After(l, e);
    } else {
      AfterOneMore(After(l, run[0]), run[1..], e);
      assert (run + [e])[1..] == run[1..] + [e];
    }
  }

  lemma {:induction false} WholeRun(l: Ledger, run: seq<Event>)
    ensures Before(l, run, 0) == l && Before(l, run, |run|) == AfterAll(l, run)
  {
    assert run[..0] == [] && run[..|run|] == run;
  }

  // ---- what is waited on

  /** How often `c` is still waited on: each time it was handed out, less the verdicts
      that name it. */
  function Waiting(l: Ledger, run: seq<Event>, c: string): nat {
    if run == [] then Occurrences(l.awaiting, c)
    else
      var before, last := run[..|run| - 1], run[|run| - 1];
      var line := LineOf(last);
      if last.Asked? then Waiting(l, before, c) + Occurrences(Handed(AfterAll(l, before)), c)
      else if line.Ack? || line.Nak? then Less(Waiting(l, before, c), Occurrences(line.list, c))
      else Waiting(l, before, c)
  }

  lemma {:induction false} CountIn(names: seq<string>, c: string)
    ensures Occurrences(names, c) > 0 <==> c in names
    ensures Occurrences(names, c) == multiset(names)[c]
  {
    if names != [] {
      CountIn(names[1..], c);
      assert names == [names[0]] + names[1..];
    }
  }

  lemma {:induction false} CountBoth(a: seq<string>, b: seq<string>, c: string)
    ensures Occurrences(a + b, c) == Occurrences(a, c) + Occurrences(b, c)
  {
    CountIn(a, c);
    CountIn(b, c);
    CountIn(a + b, c);
  }

  lemma {:induction false} SwapRemoveCounts(names: seq<string>, at: nat, c: string)
    requires at < |names|
    ensures Occurrences(SwapRemove(names, at), c) == Occurrences(names, c) - if names[at] == c then 1 else 0
  {
    var last := |names| - 1;
    var x := names[last];
    assert names == names[..last] + [x];
    CountBoth(names[..last], [x], c);
    if at < last {
      var a, b := names[..at], names[at + 1..last];
      assert names[..last] == a + [names[at]] + b && SwapRemove(names, at) == a + [x] + b;
      CountPut(a, names[at], b, c);
      CountPut(a, x, b, c);
    } else {
      assert SwapRemove(names, at) == names[..last];
    }
  }

  lemma {:induction false} CountPut(a: seq<string>, x: string, b: seq<string>, c: string)
    ensures Occurrences(a + [x] + b, c) == Occurrences(a, c) + Occurrences(b, c) + if x == c then 1 else 0
  {
    CountBoth(a + [x], b, c);
    CountBoth(a, [x], c);
  }

  lemma {:induction false} AnswerCounts(l: Ledger, list: seq<string>, ack: bool, c: string)
    ensures Occurrences(Answered(l, list, ack).awaiting, c) == Less(Occurrences(l.awaiting, c), Occurrences(list, c))
    decreases |list|
  {
    if list != [] {
      var name := list[0];
      CountIn(l.awaiting, c);
      if name !in l.awaiting {
        AnswerCounts(l, list[1..], ack, c);
      } else {
        var waiting := SwapRemove(l.awaiting, Position(l.awaiting, name));
        SwapRemoveCounts(l.awaiting, Position(l.awaiting, name), c);
        AnswerCounts(if ack then l.(awaiting := waiting, enabled := l.enabled + {name})
                     else l.(awaiting := waiting, refused := l.refused + [name]), list[1..], ack, c);
      }
    }
  }

  /** Over every run a name is waited on exactly that often. */
  lemma {:induction false} WaitingIs(l: Ledger, run: seq<Event>, c: string)
    ensures Occurrences(AfterAll(l, run).awaiting, c) == Waiting(l, run, c)
  {
    if run != [] {
      var before, last := run[..|run| - 1], run[|run| - 1];
      WaitingIs(l, before, c);
      AfterOneMore(l, before, last);
      assert run == before + [last];
      WaitingStep(AfterAll(l, before), last, c);
    }
  }

  lemma {:induction false} WaitingStep(l: Ledger, e: Event, c: string)
    ensures Occurrences(After(l, e).awaiting, c)
         == if e.Asked? then Occurrences(l.awaiting, c) + Occurrences(Handed(l), c)
            else if LineOf(e).Ack? || LineOf(e).Nak? then Less(Occurrences(l.awaiting, c), Occurrences(LineOf(e).list, c))
            else Occurrences(l.awaiting, c)
  {
    var line := LineOf(e);
    if e.Asked? {
      CountBoth(l.awaiting, Handed(l), c);
    } else if line.Ack? || line.Nak? {
      AnswerCounts(l, line.list, line.Ack?, c);
    }
  }

  // ---- what is enabled, refused and offered

  /** Every name required is in the list of a verdict. */
  predicate AnswersAll(e: Event, list: seq<string>) {
    e.HeardRequiring? && forall i | 0 <= i < |e.names| :: e.names[i] in list
  }

  /** The event grants `c`: an `ACK` names it while it is waited on, or answers a
      requirement it is part of. */
  predicate GrantedAt(l: Ledger, run: seq<Event>, i: nat, c: string)
    requires i < |run|
  {
    var e := run[i];
    && LineOf(e).Ack?
    && ((c in LineOf(e).list && Waiting(l, run[..i], c) > 0) || (AnswersAll(e, LineOf(e).list) && c in e.names))
  }

  /** The event refuses `c`: a `NAK` names it while it is waited on, or answers a
      requirement it is part of, as the 410 does for any. */
  predicate RefusedAt(l: Ledger, run: seq<Event>, i: nat, c: string)
    requires i < |run|
  {
    var e := run[i];
    || (LineOf(e).Nak? && ((c in LineOf(e).list && Waiting(l, run[..i], c) > 0) || (AnswersAll(e, LineOf(e).list) && c in e.names)))
    || (e.HeardRequiring? && LineOf(e).InvalidCap? && c in e.names)
  }

  /** The event withdraws `c`. */
  predicate Withdraws(e: Event, c: string) {
    LineOf(e).Del? && c in LineOf(e).list
  }

  /** The event offers `c` anew, by its bare name. */
  predicate OffersAnew(e: Event, c: string) {
    LineOf(e).New? && c in LineOf(e).list
  }

  lemma {:induction false} AnswerEnables(l: Ledger, list: seq<string>, c: string)
    ensures c in Answered(l, list, true).enabled <==> c in l.enabled || (c in l.awaiting && c in list)
    ensures c in Answered(l, list, true).refused <==> c in l.refused
    decreases |list|
  {
    if list != [] {
      var name := list[0];
      if name !in l.awaiting {
        AnswerEnables(l, list[1..], c);
      } else {
        InPosition(l.awaiting, name, c);
        var waiting := SwapRemove(l.awaiting, Position(l.awaiting, name));
        AnswerEnables(l.(awaiting := waiting, enabled := l.enabled + {name}), list[1..], c);
      }
    }
  }

  lemma {:induction false} AnswerRefuses(l: Ledger, list: seq<string>, c: string)
    ensures c in Answered(l, list, false).refused <==> c in l.refused || (c in l.awaiting && c in list)
    ensures c in Answered(l, list, false).enabled <==> c in l.enabled
    decreases |list|
  {
    if list != [] {
      var name := list[0];
      if name !in l.awaiting {
        AnswerRefuses(l, list[1..], c);
      } else {
        InPosition(l.awaiting, name, c);
        var waiting := SwapRemove(l.awaiting, Position(l.awaiting, name));
        AnswerRefuses(l.(awaiting := waiting, refused := l.refused + [name]), list[1..], c);
      }
    }
  }

  lemma {:induction false} EnabledStep(l: Ledger, run: seq<Event>, i: nat, c: string)
    requires i < |run|
    ensures c in Before(l, run, i + 1).enabled <==> GrantedAt(l, run, i, c) || (c in Before(l, run, i).enabled && !Withdraws(run[i], c))
    ensures c in Before(l, run, i + 1).refused <==> RefusedAt(l, run, i, c) || (c in Before(l, run, i).refused && !OffersAnew(run[i], c))
  {
    var now := Before(l, run, i);
    BeforeNext(l, run, i);
    WaitingIs(l, run[..i], c);
    CountIn(now.awaiting, c);
    OneEvent(now, run[i], c);
  }

  lemma {:induction false} OneEvent(l: Ledger, e: Event, c: string)
    ensures c in After(l, e).enabled <==>
              || (LineOf(e).Ack? && ((c in LineOf(e).list && c in l.awaiting) || (AnswersAll(e, LineOf(e).list) && c in e.names)))
              || (c in l.enabled && !Withdraws(e, c))
    ensures c in After(l, e).refused <==>
              || (LineOf(e).Nak? && ((c in LineOf(e).list && c in l.awaiting) || (AnswersAll(e, LineOf(e).list) && c in e.names)))
              || (e.HeardRequiring? && LineOf(e).InvalidCap? && c in e.names)
              || (c in l.refused && !OffersAnew(e, c))
  {
    var line := LineOf(e);
    if line.Ack? {
      AnswerEnables(l, line.list, c);
    } else if line.Nak? {
      AnswerRefuses(l, line.list, c);
    }
  }

  /** Over every run: a capability is enabled at the end exactly when it was at the
      start or was granted, and no `CAP DEL` has named it since. */
  lemma {:induction false} EnabledIff(l: Ledger, run: seq<Event>, c: string)
    ensures c in AfterAll(l, run).enabled
       <==> Stands(c in l.enabled, seq(|run|, i requires 0 <= i < |run| => GrantedAt(l, run, i, c)),
                   seq(|run|, i requires 0 <= i < |run| => Withdraws(run[i], c)))
  {
    var states := seq(|run| + 1, i requires 0 <= i <= |run| => c in Before(l, run, i).enabled);
    forall i | 0 <= i < |run|
      ensures states[i + 1] <==> GrantedAt(l, run, i, c) || (states[i] && !Withdraws(run[i], c))
    {
      EnabledStep(l, run, i, c);
    }
    WholeRun(l, run);
    StandsIff(seq(|run|, i requires 0 <= i < |run| => GrantedAt(l, run, i, c)),
              seq(|run|, i requires 0 <= i < |run| => Withdraws(run[i], c)), states);
  }

  /** Over every run: a refusal stands at the end exactly when it did at the start or
      was given, and no `CAP NEW` has offered the bare name since. */
  lemma {:induction false} RefusedIff(l: Ledger, run: seq<Event>, c: string)
    ensures c in AfterAll(l, run).refused
       <==> Stands(c in l.refused, seq(|run|, i requires 0 <= i < |run| => RefusedAt(l, run, i, c)),
                   seq(|run|, i requires 0 <= i < |run| => OffersAnew(run[i], c)))
  {
    var states := seq(|run| + 1, i requires 0 <= i <= |run| => c in Before(l, run, i).refused);
    forall i | 0 <= i < |run|
      ensures states[i + 1] <==> RefusedAt(l, run, i, c) || (states[i] && !OffersAnew(run[i], c))
    {
      EnabledStep(l, run, i, c);
    }
    WholeRun(l, run);
    StandsIff(seq(|run|, i requires 0 <= i < |run| => RefusedAt(l, run, i, c)),
              seq(|run|, i requires 0 <= i < |run| => OffersAnew(run[i], c)), states);
  }

  // ---- what is offered

  /** A token is its name and, behind an equals sign, its value. */
  lemma {:induction false} TokenParts(token: string)
    ensures '=' !in NameOf(token)
    ensures token == NameOf(token) + if ValueOf(token).Some? then ['='] + ValueOf(token).value else []
    ensures ValueOf(token).None? <==> '=' !in token
  {
    EqualsIsFirst(token);
    var at := PositionOf(token, '=');
    assert token == token[..at] + token[at..];
    if at < |token| {
      assert token[at..] == ['='] + token[at + 1..];
    }
  }

  lemma {:induction false} EqualsIsFirst(s: string)
    ensures var at := PositionOf(s, '='); '=' !in s[..at] && (at < |s| ==> s[at] == '=')
  {
    if s != [] && s[0] != '=' {
      EqualsIsFirst(s[1..]);
      var at := PositionOf(s[1..], '=');
      assert s[..at + 1] == [s[0]] + s[1..][..at];
    }
  }

  /** The last token that names `c`. */
  function LastToken(list: seq<string>, c: string): Option<string> {
    if list == [] then None
    else if NameOf(list[|list| - 1]) == c then Some(list[|list| - 1])
    else LastToken(list[..|list| - 1], c)
  }

  /** Recording a list that fits: each name it gives has the value it gives last, and
      every other what it had. */
  lemma {:induction false} RecordedValues(table: map<string, Option<string>>, list: seq<string>, c: string)
    requires !Overflows(table, list)
    ensures var r := Recorded(table, list);
            match LastToken(list, c)
            case Some(token) => c in r && r[c] == ValueOf(token)
            case None => (c in r <==> c in table) && (c in table ==> r[c] == table[c])
    decreases |list|
  {
    if list != [] {
      RecordedValues(table[NameOf(list[0]) := ValueOf(list[0])], list[1..], c);
      LastOrFirst(list, c);
    }
  }

  lemma {:induction false} LastOrFirst(list: seq<string>, c: string)
    requires list != []
    ensures LastToken(list, c) == if LastToken(list[1..], c).Some? then LastToken(list[1..], c)
                                  else if NameOf(list[0]) == c then Some(list[0]) else None
  {
    if |list| > 1 {
      LastOrFirst(list[..|list| - 1], c);
      assert list[..|list| - 1][1..] == list[1..][..|list| - 2];
    } else {
      assert list[..0] == [] && list[1..] == [];
    }
  }

  /** Recording a list that does not is recording it up to the first offer too many. */
  lemma {:induction false} RecordedStops(table: map<string, Option<string>>, list: seq<string>, n: nat)
    requires n < |list| && !Overflows(table, list[..n]) && Overflows(table, list[..n + 1])
    ensures Recorded(table, list) == Recorded(table, list[..n])
    decreases |list|
  {
    if n > 0 {
      var next := table[NameOf(list[0]) := ValueOf(list[0])];
      assert list[..n][1..] == list[1..][..n - 1] && list[..n + 1][1..] == list[1..][..n];
      RecordedStops(next, list[1..], n - 1);
    } else {
      assert list[..1][0] == list[0] && list[..1][1..] == [];
    }
  }

  /** An offer stands at the end of a step exactly when a `CAP NEW` recorded it or it
      stood before, and the step is no `CAP DEL` of it. */
  lemma {:induction false} OfferedStep(l: Ledger, e: Event, c: string)
    ensures c in After(l, e).advertised
       <==> || (LineOf(e).New? && c in Recorded(l.advertised, LineOf(e).list))
            || (c in l.advertised && !Withdraws(e, c))
  {
    var line := LineOf(e);
    if line.Ack? || line.Nak? {
      AnswerMoves(l, line.list, line.Ack?, c);
    }
  }

  /** What is handed out: every metadata name and wish that is offered and neither
      enabled, waited on nor refused, as often as it is wished for; but
      `labeled-response` only while `batch` is enabled. */
  lemma {:induction false} HandedIff(l: Ledger, c: string)
    ensures Occurrences(Handed(l), c)
         == if c in l.advertised && c !in l.enabled && c !in l.awaiting && c !in l.refused && (c == "labeled-response" ==> "batch" in l.enabled)
            then Occurrences(METADATA, c) + Occurrences(l.optional, c) else 0
  {
    CountWishes(l, Wishes(l), c);
    CountBoth(METADATA, l.optional, c);
  }

  lemma {:induction false} CountWishes(l: Ledger, names: seq<string>, c: string)
    ensures Occurrences(Wanted(l, names), c) == if IsWanted(l, c) then Occurrences(names, c) else 0
  {
    if names != [] {
      CountWishes(l, names[1..], c);
      if IsWanted(l, names[0]) {
        assert Wanted(l, names)[1..] == Wanted(l, names[1..]);
      }
    }
  }
}
