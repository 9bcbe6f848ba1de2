/**
  Re-keying a page's buffers under another case mapping, and merging those that
  become one name.
 */
module Rekey {
  import opened Wrappers
  import opened Casemap
  import Timeline

  type Name = seq<int>
  type Line = Timeline.Row

  /** `*server*`, which no channel or nickname is called. */
  const SERVER_KEY: Name := [42, 115, 101, 114, 118, 101, 114, 42]

  datatype Member = Member(name: Name, prefix: string)

  /** A member list in the order its keys were first set. */
  type Nicks = seq<(Name, Member)>

  /** A buffer at one moment. */
  datatype State = State(key: Name, display: Name, lines: seq<Line>, unread: nat, mentions: nat, nicks: Nicks)

  // ---- members

  function KeyAt(nicks: Nicks, key: Name): (at: nat)
    ensures at <= |nicks| && (at < |nicks| ==> nicks[at].0 == key)
    ensures forall i | 0 <= i < at :: nicks[i].0 != key
  {
    if nicks == [] || nicks[0].0 == key then 0
    else
      var at := 1 + KeyAt(nicks[1..], key);
      assert forall i | 0 < i < at :: nicks[i] == nicks[1..][i - 1];
      at
  }

  function Put(nicks: Nicks, key: Name, member: Member): Nicks {
    var at := KeyAt(nicks, key);
    if at < |nicks| then nicks[at := (key, member)] else nicks + [(key, member)]
  }

  /** `into` with every member of `nicks` under its name's fold. */
  function Refolded(m: CaseMapping, into: Nicks, nicks: Nicks): Nicks
    decreases |nicks|
  {
    if nicks == [] then into else Refolded(m, Put(into, Fold(m, nicks[0].1.name), nicks[0].1), nicks[1..])
  }

  /** Each member under the fold of its name, once. */
  predicate FoldedNicks(m: CaseMapping, nicks: Nicks) {
    && (forall i | 0 <= i < |nicks| :: nicks[i].0 == Fold(m, nicks[i].1.name))
    && forall i, j | 0 <= i < j < |nicks| :: nicks[i].0 != nicks[j].0
  }

  // ---- buffers

  function KeyFor(m: CaseMapping, b: State): Name {
    if b.key == SERVER_KEY then SERVER_KEY else Fold(m, b.display)
  }

  function Renamed(m: CaseMapping, b: State): State {
    b.(key := KeyFor(m, b), nicks := Refolded(m, [], b.nicks))
  }

  function Merged(m: CaseMapping, into: State, b: State): State {
    into.(lines := into.lines + b.lines, unread := into.unread + b.unread, mentions := into.mentions + b.mentions,
          nicks := Refolded(m, into.nicks, b.nicks))
  }

  function Find(done: seq<State>, key: Name): (at: nat)
    ensures at <= |done| && (at < |done| ==> done[at].key == key)
    ensures forall i | 0 <= i < at :: done[i].key != key
  {
    if done == [] || done[0].key == key then 0
    else
      var at := 1 + Find(done[1..], key);
      assert forall i | 0 < i < at :: done[i] == done[1..][i - 1];
      at
  }

  function Taken(m: CaseMapping, done: seq<State>, b: State): seq<State> {
    var at := Find(done, KeyFor(m, b));
    if at < |done| then done[at := Merged(m, done[at], b)] else done + [Renamed(m, b)]
  }

  /** Whether a buffer becomes one that is already there. */
  predicate Joins(m: CaseMapping, done: seq<State>, b: State) {
    Find(done, KeyFor(m, b)) < |done|
  }

  /** The buffers of `todo` taken one by one after those already `done`. */
  function Rekeyed(m: CaseMapping, done: seq<State>, todo: seq<State>): seq<State>
    decreases |todo|
  {
    if todo == [] then done else Rekeyed(m, Taken(m, done, todo[0]), todo[1..])
  }

  /** The pair a buffer makes when it is merged: the display of the one that stays,
      and its own. */
  function Merge(m: CaseMapping, done: seq<State>, b: State): seq<(Name, Name)> {
    if Joins(m, done, b) then [(done[Find(done, KeyFor(m, b))].display, b.display)] else []
  }

  function Merges(m: CaseMapping, done: seq<State>, todo: seq<State>): seq<(Name, Name)>
    decreases |todo|
  {
    if todo == [] then [] else Merge(m, done, todo[0]) + Merges(m, Taken(m, done, todo[0]), todo[1..])
  }

  // ---- the buffers as the page holds them

  class Buffer {
    var key: Name
    const display: Name
    var lines: seq<Line>
    var unread: nat
    var mentions: nat
    var nicks: Nicks

    function Now(): State
      reads this
    {
      State(key, display, lines, unread, mentions, nicks)
    }

    /** Set every member under its name's fold. */
    method SetAll(m: CaseMapping, members: Nicks)
      modifies this`nicks
      ensures nicks == Refolded(m, old(nicks), members)
    {
      var todo := members;
      while todo != []
        invariant Refolded(m, nicks, todo) == Refolded(m, old(nicks), members)
      {
        nicks := Put(nicks, Fold(m, todo[0].1.name), todo[0].1);
        todo := todo[1..];
      }
    }

    /** Take in a buffer that has become this one's name. */
    method TakeIn(m: CaseMapping, b: Buffer)
      requires b != this
      modifies this
      ensures Now() == Merged(m, old(Now()), old(b.Now()))
    {
      lines := lines + b.lines;
      unread := unread + b.unread;
      mentions := mentions + b.mentions;
      SetAll(m, b.nicks);
    }

    method Rename(m: CaseMapping)
      modifies this
      ensures Now() == Renamed(m, old(Now()))
    {
      key := if key == SERVER_KEY then SERVER_KEY else Fold(m, display);
      var members := nicks;
      nicks := [];
      SetAll(m, members);
    }
  }

  /** The buffers are in these states. */
  predicate Are(buffers: seq<Buffer>, states: seq<State>)
    reads buffers
  {
    |states| == |buffers| && forall i | 0 <= i < |buffers| :: buffers[i].Now() == states[i]
  }

  method Lookup(done: seq<Buffer>, key: Name, ghost states: seq<State>) returns (at: nat)
    requires Are(done, states)
    ensures at == Find(states, key)
  {
    at := 0;
    while at < |done| && done[at].key != key
      invariant 0 <= at <= |done|
      invariant forall i | 0 <= i < at :: states[i].key != key
    {
      at := at + 1;
    }
    FindIs(states, key, at);
  }

  lemma {:induction false} FindIs(done: seq<State>, key: Name, at: nat)
    requires at <= |done| && (at < |done| ==> done[at].key == key) && forall i | 0 <= i < at :: done[i].key != key
    ensures Find(done, key) == at
  {
    var found := Find(done, key);
    assert found < |done| ==> found >= at;
  }

  predicate DistinctBuffers(buffers: seq<Buffer>) {
    forall i, j | 0 <= i < j < |buffers| :: buffers[i] != buffers[j]
  }

  /** The buffers done are different ones, and none of those still to take. */
  predicate Apart(done: seq<Buffer>, buffers: seq<Buffer>, i: nat) {
    DistinctBuffers(done) && forall k, j | 0 <= k < |done| && i <= j < |buffers| :: done[k] != buffers[j]
  }

  lemma {:induction false} ApartNext(done: seq<Buffer>, buffers: seq<Buffer>, i: nat)
    requires Apart(done, buffers, i) && DistinctBuffers(buffers) && i < |buffers|
    ensures Apart(done, buffers, i + 1) && Apart(done + [buffers[i]], buffers, i + 1)
  {
  }

  /** The buffers from the `i`th on are as they were. */
  predicate Untouched(buffers: seq<Buffer>, was: seq<State>, i: nat)
    reads buffers
  {
    |buffers| == |was| && forall j | i <= j < |buffers| :: buffers[j].Now() == was[j]
  }

  /** Where the loop stands before buffer `i`. */
  ghost predicate Going(m: CaseMapping, buffers: seq<Buffer>, was: seq<State>, i: nat, done: seq<Buffer>, states: seq<State>,
                        merged: seq<(Name, Name)>, all: set<Buffer>)
    reads buffers, done
  {
    && (forall k | 0 <= k < |done| :: done[k] in all)
    && Apart(done, buffers, i) && Are(done, states) && Untouched(buffers, was, i)
    && OnTrack(m, was, i, states, merged)
  }

  /** Buffer `i` becomes part of the one at `at`. */
  method TakeInto(m: CaseMapping, buffers: seq<Buffer>, i: nat, done: seq<Buffer>, at: nat, ghost states: seq<State>, ghost was: seq<State>)
    requires i < |buffers| && Apart(done, buffers, i) && Are(done, states) && Untouched(buffers, was, i) && at < |done|
    modifies done[at]
    ensures Are(done, states[at := Merged(m, states[at], was[i])]) && Untouched(buffers, was, i + 1)
  {
    done[at].TakeIn(m, buffers[i]);
  }

  /** Buffer `i` stays, under its new key. */
  method TakeAnew(m: CaseMapping, buffers: seq<Buffer>, i: nat, done: seq<Buffer>, ghost states: seq<State>, ghost was: seq<State>)
    requires i < |buffers| && DistinctBuffers(buffers) && Apart(done, buffers, i) && Are(done, states) && Untouched(buffers, was, i)
    modifies buffers[i]
    ensures Are(done + [buffers[i]], states + [Renamed(m, was[i])]) && Untouched(buffers, was, i + 1)
  {
    buffers[i].Rename(m);
  }

  /** One more buffer: merged into the one that has its new key, or renamed. */
  method TakeBuffer(m: CaseMapping, buffers: seq<Buffer>, i: nat, done: seq<Buffer>, pairs: seq<(Name, Name)>,
                    ghost states: seq<State>, ghost was: seq<State>, ghost all: set<Buffer>)
    returns (rekeyed: seq<Buffer>, merged: seq<(Name, Name)>, ghost now: seq<State>)
    requires i < |buffers| && DistinctBuffers(buffers) && buffers[i] in all
    requires Going(m, buffers, was, i, done, states, pairs, all)
    modifies all
    ensures Going(m, buffers, was, i + 1, rekeyed, now, merged, all)
  {
    var b := buffers[i];
    ApartNext(done, buffers, i);
    OnTrackNext(m, was, i, states, pairs);
    now := Taken(m, states, was[i]);
    var at := Lookup(done, if b.key == SERVER_KEY then SERVER_KEY else Fold(m, b.display), states);
    if at < |done| {
      TakeInto(m, buffers, i, done, at, states, was);
      return done, pairs + [(done[at].display, b.display)], now;
    }
    TakeAnew(m, buffers, i, done, states, was);
    assert pairs + [] == pairs;
    return done + [b], pairs, now;
  }

  /** Re-key the buffers in place; those that become one name are merged into the
      first. */
  method RekeyBuffers(m: CaseMapping, buffers: seq<Buffer>, ghost was: seq<State>, ghost all: set<Buffer>)
    returns (rekeyed: seq<Buffer>, merged: seq<(Name, Name)>)
    requires DistinctBuffers(buffers) && Are(buffers, was) && forall i | 0 <= i < |buffers| :: buffers[i] in all
    modifies all
    ensures Are(rekeyed, Rekeyed(m, [], was)) && merged == Merges(m, [], was)
  {
    rekeyed, merged := [], [];
    ghost var states: seq<State> := [];
    OnTrackFirst(m, was);
    for i := 0 to |buffers|
      invariant Going(m, buffers, was, i, rekeyed, states, merged, all)
    {
      rekeyed, merged, states := TakeBuffer(m, buffers, i, rekeyed, merged, states, was, all);
    }
    OnTrackLast(m, was, states, merged);
  }

  /** What is left to take leads to where everything leads. */
  ghost predicate OnTrack(m: CaseMapping, was: seq<State>, i: nat, done: seq<State>, merged: seq<(Name, Name)>) {
    && i <= |was|
    && Rekeyed(m, done, was[i..]) == Rekeyed(m, [], was)
    && merged + Merges(m, done, was[i..]) == Merges(m, [], was)
  }

  lemma {:induction false} OnTrackFirst(m: CaseMapping, was: seq<State>)
    ensures OnTrack(m, was, 0, [], [])
  {
    assert was[0..] == was && [] + Merges(m, [], was) == Merges(m, [], was);
  }

  lemma {:induction false} OnTrackNext(m: CaseMapping, was: seq<State>, i: nat, done: seq<State>, merged: seq<(Name, Name)>)
    requires i < |was| && OnTrack(m, was, i, done, merged)
    ensures OnTrack(m, was, i + 1, Taken(m, done, was[i]), merged + Merge(m, done, was[i]))
  {
    Ahead(was, i);
    NextMerge(m, done, was[i..], merged);
  }

  lemma {:induction false} OnTrackLast(m: CaseMapping, was: seq<State>, done: seq<State>, merged: seq<(Name, Name)>)
    requires OnTrack(m, was, |was|, done, merged)
    ensures done == Rekeyed(m, [], was) && merged == Merges(m, [], was)
  {
    assert was[|was|..] == [];
  }

  lemma {:induction false} Ahead(was: seq<State>, i: nat)
    requires i < |was|
    ensures was[i..] != [] && was[i..][0] == was[i] && was[i..][1..] == was[i + 1..]
  {
  }

  lemma {:induction false} NextMerge(m: CaseMapping, done: seq<State>, todo: seq<State>, merged: seq<(Name, Name)>)
    requires todo != []
    ensures merged + Merges(m, done, todo) == merged + Merge(m, done, todo[0]) + Merges(m, Taken(m, done, todo[0]), todo[1..])
  {
  }

  // ---- what re-keying keeps

  /** Every buffer is under its own key, members under theirs, and no two buffers
      under one key. */
  predicate Canonical(m: CaseMapping, buffers: seq<State>) {
    && (forall i | 0 <= i < |buffers| :: buffers[i].key == KeyFor(m, buffers[i]) && FoldedNicks(m, buffers[i].nicks))
    && forall i, j | 0 <= i < j < |buffers| :: buffers[i].key != buffers[j].key
  }

  lemma {:induction false} PutKeeps(m: CaseMapping, nicks: Nicks, member: Member)
    requires FoldedNicks(m, nicks)
    ensures FoldedNicks(m, Put(nicks, Fold(m, member.name), member))
  {
  }

  lemma {:induction false} RefoldedKeeps(m: CaseMapping, into: Nicks, nicks: Nicks)
    requires FoldedNicks(m, into)
    ensures FoldedNicks(m, Refolded(m, into, nicks))
    decreases |nicks|
  {
    if nicks != [] {
      PutKeeps(m, into, nicks[0].1);
      RefoldedKeeps(m, Put(into, Fold(m, nicks[0].1.name), nicks[0].1), nicks[1..]);
    }
  }

  lemma {:induction false} TakenKeeps(m: CaseMapping, done: seq<State>, b: State)
    requires Canonical(m, done)
    ensures Canonical(m, Taken(m, done, b))
  {
    var at := Find(done, KeyFor(m, b));
    if at < |done| {
      RefoldedKeeps(m, done[at].nicks, b.nicks);
      assert KeyFor(m, Merged(m, done[at], b)) == KeyFor(m, done[at]);
    } else {
      RefoldedKeeps(m, [], b.nicks);
      RenamedKey(m, b);
    }
  }

  lemma {:induction false} RenamedKey(m: CaseMapping, b: State)
    ensures KeyFor(m, Renamed(m, b)) == Renamed(m, b).key
  {
  }

  /** Afterwards every buffer is under the fold of its name, the server's under its
      own key, and members under the folds of theirs. */
  lemma {:induction false} RekeyedIsCanonical(m: CaseMapping, done: seq<State>, todo: seq<State>)
    requires Canonical(m, done)
    ensures Canonical(m, Rekeyed(m, done, todo))
    decreases |todo|
  {
    if todo != [] {
      TakenKeeps(m, done, todo[0]);
      RekeyedIsCanonical(m, Taken(m, done, todo[0]), todo[1..]);
    }
  }

  /** The lines of every buffer. */
  function Lines(buffers: seq<State>): seq<Line> {
    if buffers == [] then [] else buffers[0].lines + Lines(buffers[1..])
  }

  function Unread(buffers: seq<State>): nat {
    if buffers == [] then 0 else buffers[0].unread + Unread(buffers[1..])
  }

  function Mentions(buffers: seq<State>): nat {
    if buffers == [] then 0 else buffers[0].mentions + Mentions(buffers[1..])
  }

  lemma {:induction false} TotalsAtEnd(done: seq<State>, b: State)
    ensures multiset(Lines(done + [b])) == multiset(Lines(done)) + multiset(b.lines)
    ensures Unread(done + [b]) == Unread(done) + b.unread && Mentions(done + [b]) == Mentions(done) + b.mentions
  {
    if done == [] {
      assert done + [b] == [b] && [b][1..] == [];
      assert Lines([b]) == b.lines + Lines([]) && Unread([b]) == b.unread + Unread([]) && Mentions([b]) == b.mentions + Mentions([]);
    } else {
      TotalsAtEnd(done[1..], b);
      assert (done + [b])[1..] == done[1..] + [b];
    }
  }

  lemma {:induction false} TotalsWith(done: seq<State>, at: nat, b: State, more: seq<Line>)
    requires at < |done| && b.lines == done[at].lines + more && b.unread >= done[at].unread && b.mentions >= done[at].mentions
    ensures multiset(Lines(done[at := b])) == multiset(Lines(done)) + multiset(more)
    ensures Unread(done[at := b]) == Unread(done) + b.unread - done[at].unread
    ensures Mentions(done[at := b]) == Mentions(done) + b.mentions - done[at].mentions
  {
    if at > 0 {
      TotalsWith(done[1..], at - 1, b, more);
      assert done[at := b][1..] == done[1..][at - 1 := b];
    } else {
      assert done[0 := b][1..] == done[1..];
    }
  }

  lemma {:induction false} TakenConserves(m: CaseMapping, done: seq<State>, b: State)
    ensures multiset(Lines(Taken(m, done, b))) == multiset(Lines(done)) + multiset(b.lines)
    ensures Unread(Taken(m, done, b)) == Unread(done) + b.unread && Mentions(Taken(m, done, b)) == Mentions(done) + b.mentions
    ensures |Taken(m, done, b)| + |Merge(m, done, b)| == |done| + 1
  {
    var at := Find(done, KeyFor(m, b));
    if at < |done| {
      TotalsWith(done, at, Merged(m, done[at], b), b.lines);
    } else {
      TotalsAtEnd(done, Renamed(m, b));
    }
  }

  /** No line is lost or made, unread and mention counts keep their totals, and
      every buffer is still there or was merged. */
  lemma {:induction false} RekeyedConserves(m: CaseMapping, done: seq<State>, todo: seq<State>)
    ensures multiset(Lines(Rekeyed(m, done, todo))) == multiset(Lines(done)) + multiset(Lines(todo))
    ensures Unread(Rekeyed(m, done, todo)) == Unread(done) + Unread(todo)
    ensures Mentions(Rekeyed(m, done, todo)) == Mentions(done) + Mentions(todo)
    ensures |Rekeyed(m, done, todo)| + |Merges(m, done, todo)| == |done| + |todo|
    decreases |todo|
  {
    if todo != [] {
      TakenConserves(m, done, todo[0]);
      RekeyedConserves(m, Taken(m, done, todo[0]), todo[1..]);
    }
  }

  // ---- what becomes of each name

  /** The buffers that have key `key` under `m`, in order. */
  function Becoming(m: CaseMapping, buffers: seq<State>, key: Name): seq<State> {
    if buffers == [] then []
    else OneBecoming(m, buffers[0], key) + Becoming(m, buffers[1..], key)
  }

  function OneBecoming(m: CaseMapping, b: State, key: Name): seq<State> {
    if KeyFor(m, b) == key then [b] else []
  }

  /** The last member of `nicks` whose name folds to `fold`. */
  function LastNamed(m: CaseMapping, nicks: Nicks, fold: Name): Option<Member> {
    if nicks == [] then None
    else if Fold(m, nicks[|nicks| - 1].1.name) == fold then Some(nicks[|nicks| - 1].1)
    else LastNamed(m, nicks[..|nicks| - 1], fold)
  }

  /** The last member of any of these buffers whose name folds to `fold`. */
  function LastOfAll(m: CaseMapping, buffers: seq<State>, fold: Name): Option<Member> {
    if buffers == [] then None
    else
      var last := LastNamed(m, buffers[|buffers| - 1].nicks, fold);
      if last.Some? then last else LastOfAll(m, buffers[..|buffers| - 1], fold)
  }

  /** The member under a key. */
  function MemberAt(nicks: Nicks, key: Name): Option<Member> {
    if KeyAt(nicks, key) < |nicks| then Some(nicks[KeyAt(nicks, key)].1) else None
  }

  lemma {:induction false} PutSets(nicks: Nicks, key: Name, member: Member, other: Name)
    ensures MemberAt(Put(nicks, key, member), other) == if other == key then Some(member) else MemberAt(nicks, other)
  {
    var at, now := KeyAt(nicks, key), Put(nicks, key, member);
    assert now[at] == (key, member);
    assert forall i | 0 <= i < |nicks| && i != at :: now[i] == nicks[i];
  }

  lemma {:induction false} RefoldedAtEnd(m: CaseMapping, into: Nicks, nicks: Nicks)
    requires nicks != []
    ensures var last := nicks[|nicks| - 1].1;
            Refolded(m, into, nicks) == Put(Refolded(m, into, nicks[..|nicks| - 1]), Fold(m, last.name), last)
    decreases |nicks|
  {
    if |nicks| > 1 {
      RefoldedAtEnd(m, Put(into, Fold(m, nicks[0].1.name), nicks[0].1), nicks[1..]);
      assert nicks[1..][..|nicks| - 2] == nicks[..|nicks| - 1][1..];
    }
  }

  /** Members set one by one: the last of each fold stands, and those already there
      that none replaces. */
  lemma {:induction false} RefoldedSets(m: CaseMapping, into: Nicks, nicks: Nicks, fold: Name)
    ensures MemberAt(Refolded(m, into, nicks), fold)
         == if LastNamed(m, nicks, fold).Some? then LastNamed(m, nicks, fold) else MemberAt(into, fold)
    decreases |nicks|
  {
    if nicks != [] {
      var last := nicks[|nicks| - 1].1;
      RefoldedAtEnd(m, into, nicks);
      RefoldedSets(m, into, nicks[..|nicks| - 1], fold);
      PutSets(Refolded(m, into, nicks[..|nicks| - 1]), Fold(m, last.name), last, fold);
    }
  }

  /** What the buffers at one key have between them. */
  ghost predicate Gathers(m: CaseMapping, b: State, from: seq<State>) {
    && from != [] && b.display == from[0].display
    && b.lines == Lines(from) && b.unread == Unread(from) && b.mentions == Mentions(from)
    && forall fold :: MemberAt(b.nicks, fold) == LastOfAll(m, from, fold)
  }

  /** The buffer at `key` is made of all those that become it, and there is none when
      none does. */
  ghost predicate IsMadeOf(m: CaseMapping, buffers: seq<State>, key: Name, from: seq<State>) {
    var at := Find(buffers, key);
    if at < |buffers| then Gathers(m, buffers[at], from) else from == []
  }

  lemma {:induction false} LinesAtEnd(done: seq<State>, b: State)
    ensures Lines(done + [b]) == Lines(done) + b.lines
  {
    if done == [] {
      assert done + [b] == [b] && [b][1..] == [];
      assert Lines([b]) == b.lines + Lines([]);
    } else {
      LinesAtEnd(done[1..], b);
      assert (done + [b])[1..] == done[1..] + [b];
    }
  }

  lemma {:induction false} LastAtEnd(m: CaseMapping, from: seq<State>, b: State, fold: Name)
    ensures LastOfAll(m, from + [b], fold)
         == if LastNamed(m, b.nicks, fold).Some? then LastNamed(m, b.nicks, fold) else LastOfAll(m, from, fold)
  {
    assert (from + [b])[..|from|] == from;
  }

  lemma {:induction false} MergedGathers(m: CaseMapping, into: State, b: State, from: seq<State>)
    requires Gathers(m, into, from)
    ensures Gathers(m, Merged(m, into, b), from + [b])
  {
    LinesAtEnd(from, b);
    TotalsAtEnd(from, b);
    forall fold ensures MemberAt(Merged(m, into, b).nicks, fold) == LastOfAll(m, from + [b], fold) {
      RefoldedSets(m, into.nicks, b.nicks, fold);
      LastAtEnd(m, from, b, fold);
    }
  }

  lemma {:induction false} RenamedGathers(m: CaseMapping, b: State)
    ensures Gathers(m, Renamed(m, b), [b])
  {
    var none: seq<State> := [];
    assert none + [b] == [b];
    LinesAtEnd(none, b);
    TotalsAtEnd(none, b);
    assert Lines(none) == [] && Unread(none) == 0 && Mentions(none) == 0;
    forall fold ensures MemberAt(Renamed(m, b).nicks, fold) == LastOfAll(m, [b], fold) {
      RefoldedSets(m, [], b.nicks, fold);
      LastAtEnd(m, none, b, fold);
    }
  }

  lemma {:induction false} TakenIsMadeOf(m: CaseMapping, done: seq<State>, b: State, key: Name, from: seq<State>)
    requires IsMadeOf(m, done, key, from)
    ensures IsMadeOf(m, Taken(m, done, b), key, from + OneBecoming(m, b, key))
  {
    assert from + [] == from;
    var at, now := Find(done, KeyFor(m, b)), Taken(m, done, b);
    KeysAfter(m, done, b, key);
    if KeyFor(m, b) == key {
      if at < |done| {
        MergedGathers(m, done[at], b, from);
      } else {
        RenamedGathers(m, b);
        assert from + [b] == [b];
      }
    }
  }

  /** Where a key is found once one more buffer is taken. */
  lemma {:induction false} KeysAfter(m: CaseMapping, done: seq<State>, b: State, key: Name)
    ensures var now, at := Taken(m, done, b), Find(done, KeyFor(m, b));
            if KeyFor(m, b) == key then
              Find(now, key) == at && now[at] == if at < |done| then Merged(m, done[at], b) else Renamed(m, b)
            else if Find(done, key) < |done| then
              Find(now, key) == Find(done, key) && now[Find(now, key)] == done[Find(done, key)]
            else Find(now, key) == |now|
  {
    var now, at := Taken(m, done, b), Find(done, KeyFor(m, b));
    assert forall i | 0 <= i < |done| :: now[i].key == done[i].key && (i != at ==> now[i] == done[i]);
    if at == |done| {
      assert now[|done|] == Renamed(m, b);
    }
  }

  lemma {:induction false} RekeyedIsMadeOf(m: CaseMapping, done: seq<State>, todo: seq<State>, key: Name, from: seq<State>)
    requires IsMadeOf(m, done, key, from)
    ensures IsMadeOf(m, Rekeyed(m, done, todo), key, from + Becoming(m, todo, key))
    decreases |todo|
  {
    if todo == [] {
      assert from + [] == from;
    } else {
      TakenIsMadeOf(m, done, todo[0], key, from);
      RekeyedIsMadeOf(m, Taken(m, done, todo[0]), todo[1..], key, from + OneBecoming(m, todo[0], key));
      Glue(from, OneBecoming(m, todo[0], key), Becoming(m, todo[1..], key));
    }
  }

  /** Name by name: afterwards there is a buffer at a key exactly when some buffer
      became it; it has the display of the first, the lines of all in order, their
      counts, and every name that was a member of any, as it was set last. */
  lemma {:induction false} RekeyedByName(m: CaseMapping, buffers: seq<State>, key: Name)
    ensures IsMadeOf(m, Rekeyed(m, [], buffers), key, Becoming(m, buffers, key))
  {
    RekeyedIsMadeOf(m, [], buffers, key, []);
    assert [] + Becoming(m, buffers, key) == Becoming(m, buffers, key);
  }

  /** Somebody is a member at a key afterwards exactly when some buffer that became it
      had a member of that fold. */
  lemma {:induction false} MembersSurvive(m: CaseMapping, from: seq<State>, fold: Name)
    ensures LastOfAll(m, from, fold).Some?
       <==> exists i, j :: 0 <= i < |from| && 0 <= j < |from[i].nicks| && Fold(m, from[i].nicks[j].1.name) == fold
  {
    if from != [] {
      var front, b := from[..|from| - 1], from[|from| - 1];
      MembersSurvive(m, front, fold);
      NamedSomewhere(m, b.nicks, fold);
      if LastNamed(m, b.nicks, fold).Some? {
        var j :| 0 <= j < |b.nicks| && Fold(m, b.nicks[j].1.name) == fold;
        assert from[|from| - 1].nicks[j] == b.nicks[j];
      } else if LastOfAll(m, front, fold).Some? {
        var i, j :| 0 <= i < |front| && 0 <= j < |front[i].nicks| && Fold(m, front[i].nicks[j].1.name) == fold;
        assert from[i] == front[i];
      } else {
        assert forall i | 0 <= i < |front| :: front[i] == from[i];
      }
    }
  }

  lemma {:induction false} NamedSomewhere(m: CaseMapping, nicks: Nicks, fold: Name)
    ensures LastNamed(m, nicks, fold).Some? <==> exists j :: 0 <= j < |nicks| && Fold(m, nicks[j].1.name) == fold
  {
    if nicks != [] {
      var front := nicks[..|nicks| - 1];
      NamedSomewhere(m, front, fold);
      assert forall j | 0 <= j < |front| :: front[j] == nicks[j];
      if Fold(m, nicks[|nicks| - 1].1.name) != fold && LastNamed(m, front, fold).Some? {
        var j :| 0 <= j < |front| && Fold(m, front[j].1.name) == fold;
        assert Fold(m, nicks[j].1.name) == fold;
      }
    }
  }

  // ---- when nothing is merged

  lemma {:induction false} RefoldedFolded(m: CaseMapping, into: Nicks, nicks: Nicks)
    requires FoldedNicks(m, into + nicks)
    ensures Refolded(m, into, nicks) == into + nicks
    decreases |nicks|
  {
    if nicks == [] {
      assert into + nicks == into;
    } else {
      var all := into + nicks;
      assert all[|into|] == nicks[0];
      assert forall i | 0 <= i < |into| :: into[i] == all[i];
      assert KeyAt(into, nicks[0].0) == |into|;
      assert into + [nicks[0]] + nicks[1..] == all;
      RefoldedFolded(m, into + [nicks[0]], nicks[1..]);
    }
  }

  /** Buffers whose keys under `m` are all different keep to themselves. */
  lemma {:induction false} NothingMerges(m: CaseMapping, done: seq<State>, todo: seq<State>)
    requires KeysApart(m, done, todo)
    ensures Merges(m, done, todo) == []
    decreases |todo|
  {
    if todo != [] {
      var b := todo[0];
      assert Find(done, KeyFor(m, b)) == |done|;
      KeysApartNext(m, done, todo);
      NothingMerges(m, Taken(m, done, b), todo[1..]);
    }
  }

  /** The keys of `done` and those `todo` will have are all different. */
  predicate KeysApart(m: CaseMapping, done: seq<State>, todo: seq<State>) {
    && (forall i, j | 0 <= i < |done| && 0 <= j < |todo| :: done[i].key != KeyFor(m, todo[j]))
    && forall i, j | 0 <= i < j < |todo| :: KeyFor(m, todo[i]) != KeyFor(m, todo[j])
  }

  lemma {:induction false} KeysApartNext(m: CaseMapping, done: seq<State>, todo: seq<State>)
    requires KeysApart(m, done, todo) && todo != []
    ensures KeysApart(m, done + [Renamed(m, todo[0])], todo[1..])
  {
    var more, rest := done + [Renamed(m, todo[0])], todo[1..];
    forall i, j | 0 <= i < |more| && 0 <= j < |rest| ensures more[i].key != KeyFor(m, rest[j]) {
      assert rest[j] == todo[j + 1];
      if i == |done| {
        assert KeyFor(m, todo[0]) != KeyFor(m, todo[j + 1]);
      }
    }
    forall i, j | 0 <= i < j < |rest| ensures KeyFor(m, rest[i]) != KeyFor(m, rest[j]) {
      assert rest[i] == todo[i + 1] && rest[j] == todo[j + 1];
    }
  }

  /** A buffer already under its key is taken as it is. */
  lemma {:induction false} AlreadyThere(m: CaseMapping, done: seq<State>, b: State)
    requires b.key == KeyFor(m, b) && FoldedNicks(m, b.nicks) && forall i | 0 <= i < |done| :: done[i].key != b.key
    ensures Taken(m, done, b) == done + [b] && Merge(m, done, b) == []
  {
    assert Find(done, KeyFor(m, b)) == |done|;
    assert [] + b.nicks == b.nicks;
    RefoldedFolded(m, [], b.nicks);
  }

  lemma {:induction false} CanonicalNext(m: CaseMapping, done: seq<State>, todo: seq<State>)
    requires Canonical(m, done + todo) && todo != []
    ensures todo[0].key == KeyFor(m, todo[0]) && FoldedNicks(m, todo[0].nicks)
    ensures forall i | 0 <= i < |done| :: done[i].key != todo[0].key
    ensures done + [todo[0]] + todo[1..] == done + todo
  {
    var all := done + todo;
    assert all[|done|] == todo[0];
    assert forall i | 0 <= i < |done| :: done[i] == all[i];
  }

  /** A second pass changes nothing and merges nothing. */
  lemma {:induction false} SecondPassIsNone(m: CaseMapping, done: seq<State>, todo: seq<State>)
    requires Canonical(m, done + todo)
    ensures Rekeyed(m, done, todo) == done + todo && Merges(m, done, todo) == []
    decreases |todo|
  {
    if todo == [] {
      assert done + todo == done;
    } else {
      CanonicalNext(m, done, todo);
      AlreadyThere(m, done, todo[0]);
      SecondPassIsNone(m, done + [todo[0]], todo[1..]);
    }
  }

  lemma {:induction false} RekeyingTwice(m: CaseMapping, buffers: seq<State>)
    ensures Rekeyed(m, [], Rekeyed(m, [], buffers)) == Rekeyed(m, [], buffers) && Merges(m, [], Rekeyed(m, [], buffers)) == []
  {
    RekeyedIsCanonical(m, [], buffers);
    assert [] + Rekeyed(m, [], buffers) == Rekeyed(m, [], buffers);
    SecondPassIsNone(m, [], Rekeyed(m, [], buffers));
  }

  /** Buffers one under any mapping were one under `rfc1459`. */
  lemma {:induction false} OneUnderRfc1459(m: CaseMapping, a: State, b: State)
    requires KeyFor(m, a) == KeyFor(m, b) && a.key == KeyFor(Rfc1459, a) && b.key == KeyFor(Rfc1459, b)
    ensures a.key == b.key
  {
    FinerFold(m, a.display);
    FinerFold(m, b.display);
    FinerFold(m, SERVER_KEY);
    ServerKeyStays(m);
    ServerKeyStays(Rfc1459);
  }

  lemma {:induction false} ServerKeyStays(m: CaseMapping)
    ensures Fold(m, SERVER_KEY) == SERVER_KEY
  {
  }

  /** Moving from `rfc1459` to any other mapping never merges. */
  lemma {:induction false} LeavingRfc1459NeverMerges(m: CaseMapping, buffers: seq<State>)
    requires Canonical(Rfc1459, buffers)
    ensures Merges(m, [], buffers) == [] && |Rekeyed(m, [], buffers)| == |buffers|
  {
    forall i, j | 0 <= i < j < |buffers| ensures KeyFor(m, buffers[i]) != KeyFor(m, buffers[j]) {
      if KeyFor(m, buffers[i]) == KeyFor(m, buffers[j]) {
        OneUnderRfc1459(m, buffers[i], buffers[j]);
      }
    }
    NothingMerges(m, [], buffers);
    RekeyedConserves(m, [], buffers);
  }
}
