/**
  Whether the server is still there: after one window of silence the client
  asks, and after a second it declares the server gone. Time is a clock the
  caller reads; a read abandoned for local input is a turn that does nothing.
 */
module Liveness {
  import opened Wrappers

  const KEEPALIVE_TOKEN: string := "e6irc-keepalive"

  /** The moment by which the server must next be heard from. */
  datatype Watch = Watch(window: nat, deadline: nat, probed: bool)

  function Begin(window: nat, now: nat): Watch {
    Watch(window, now + window, false)
  }

  function HeardAt(w: Watch, now: nat): Watch {
    Watch(w.window, now + w.window, false)
  }

  /** The first silent window is a probe; a second in a row leaves the watch as
      it was and the server dead. */
  function SilentAt(w: Watch, now: nat): Watch {
    if w.probed then w else Watch(w.window, now + w.window, true)
  }

  // ---- lines in and out

  datatype Message = Message(command: string, params: seq<string>)

  /** What one bounded read comes to: nothing by the deadline, a failure, the end
      of the stream, or a line, parsed or not. */
  datatype Read = Lapsed | Failed | Ended | Line(message: Option<Message>)

  datatype Sent = Ping(token: string) | Pong(token: string)

  datatype Heard = Event(line: Read) | Nothing | Closed | ReadFailed | WriteFailed | ServerGone

  predicate IsKeepaliveAnswer(m: Message) {
    m.command == "PONG" && m.params != [] && m.params[|m.params| - 1] == KEEPALIVE_TOKEN
  }

  function Token(m: Message): string {
    if m.params == [] then "" else m.params[0]
  }

  function Outcome(w: Watch, read: Read): Heard {
    match read
    case Lapsed => if w.probed then ServerGone else Nothing
    case Failed => ReadFailed
    case Ended => Closed
    case Line(message) =>
      if message.Some? && (message.value.command == "PING" || IsKeepaliveAnswer(message.value)) then Nothing else Event(read)
  }

  function Reply(w: Watch, read: Read): seq<Sent> {
    match read
    case Lapsed => if w.probed then [] else [Ping(KEEPALIVE_TOKEN)]
    case Line(Some(m)) => if m.command == "PING" then [Pong(Token(m))] else []
    case _ => []
  }

  function Next(w: Watch, read: Read, now: nat): Watch {
    match read
    case Lapsed => SilentAt(w, now)
    case Line(_) => HeardAt(w, now)
    case _ => w
  }

  // ---- runs

  /** A read that was settled at a moment, or a local turn that abandoned one. */
  datatype Step = Settled(read: Read, at: nat) | Turn(at: nat)

  /** Time does not run backwards; a read lapses only at its deadline or later;
      nothing follows a read that ended the session. */
  ghost predicate Possible(w: Watch, now: nat, run: seq<Step>)
    decreases |run|
  {
    run == [] ||
      (var step := run[0];
       && now <= step.at
       && match step
          case Turn(at) => Possible(w, at, run[1..])
          case Settled(read, at) =>
            && (read.Lapsed? ==> w.deadline <= at)
            && (Outcome(w, read).Event? || Outcome(w, read).Nothing? || |run| == 1)
            && Possible(Next(w, read, at), at, run[1..]))
  }

  function WatchAfter(w: Watch, run: seq<Step>): Watch
    decreases |run|
  {
    if run == [] then w
    else WatchAfter(if run[0].Settled? then Next(w, run[0].read, run[0].at) else w, run[1..])
  }

  /** When the server was last heard in `run`, or `since` if it was not. */
  function LastHeard(since: nat, run: seq<Step>): nat
    decreases |run|
  {
    if run == [] then since
    else LastHeard(if run[0].Settled? && run[0].read.Line? then run[0].at else since, run[1..])
  }

  /** The probes sent since the server was last heard, `probes` those before. */
  function ProbesSince(w: Watch, probes: seq<nat>, run: seq<Step>): seq<nat>
    decreases |run|
  {
    if run == [] then probes
    else
      match run[0]
      case Turn(_) => ProbesSince(w, probes, run[1..])
      case Settled(read, at) =>
        var now := if read.Line? then []
                   else if Ping(KEEPALIVE_TOKEN) in Reply(w, read) then probes + [at]
                   else probes;
        ProbesSince(Next(w, read, at), now, run[1..])
  }

  /** How a watch stands to what was heard and asked. */
  ghost predicate Stands(w: Watch, heard: nat, probes: seq<nat>) {
    if w.probed then |probes| == 1 && heard + w.window <= probes[0] && w.deadline == probes[0] + w.window
    else probes == [] && w.deadline == heard + w.window
  }

  lemma {:induction false} RunStands(w: Watch, heard: nat, probes: seq<nat>, now: nat, run: seq<Step>)
    requires Stands(w, heard, probes) && Possible(w, now, run)
    ensures Stands(WatchAfter(w, run), LastHeard(heard, run), ProbesSince(w, probes, run))
    ensures WatchAfter(w, run).window == w.window
    decreases |run|
  {
    if run != [] {
      match run[0]
      case Turn(at) => RunStands(w, heard, probes, at, run[1..]);
      case Settled(read, at) =>
        var next := Next(w, read, at);
        var heard' := if read.Line? then at else heard;
        var probes' := if read.Line? then []
                       else if Ping(KEEPALIVE_TOKEN) in Reply(w, read) then probes + [at]
                       else probes;
        StepStands(w, heard, probes, read, at);
        RunStands(next, heard', probes', at, run[1..]);
    }
  }

  lemma {:induction false} StepStands(w: Watch, heard: nat, probes: seq<nat>, read: Read, at: nat)
    requires Stands(w, heard, probes) && (read.Lapsed? ==> w.deadline <= at)
    ensures read.Line? ==> Stands(Next(w, read, at), at, [])
    ensures !read.Line? ==>
              Stands(Next(w, read, at), heard, if Ping(KEEPALIVE_TOKEN) in Reply(w, read) then probes + [at] else probes)
  {
  }

  /** The server is declared gone only when two full windows have passed since it
      was last heard, with exactly one probe sent in them, a window before the
      end at least. */
  lemma {:induction false} GoneAfterTwoWindows(window: nat, began: nat, run: seq<Step>, at: nat)
    requires Possible(Begin(window, began), began, run)
    requires var w := WatchAfter(Begin(window, began), run);
             w.deadline <= at && Outcome(w, Lapsed) == ServerGone
    ensures LastHeard(began, run) + 2 * window <= at
    ensures var probes := ProbesSince(Begin(window, began), [], run);
            |probes| == 1 && LastHeard(began, run) + window <= probes[0] && probes[0] + window <= at
  {
    RunStands(Begin(window, began), began, [], began, run);
  }

  /** The lines a run is answered with. */
  function Replies(w: Watch, run: seq<Step>): seq<Sent>
    decreases |run|
  {
    if run == [] then []
    else if run[0].Turn? then Replies(w, run[1..])
    else Reply(w, run[0].read) + Replies(Next(w, run[0].read, run[0].at), run[1..])
  }

  /** Reading may be left off and gone on with anywhere: the deadline, the probe and
      the answers are those of one uninterrupted run. */
  lemma {:induction false} Resumed(w: Watch, run: seq<Step>, more: seq<Step>)
    ensures WatchAfter(w, run + more) == WatchAfter(WatchAfter(w, run), more)
    ensures Replies(w, run + more) == Replies(w, run) + Replies(WatchAfter(w, run), more)
    decreases |run|
  {
    if run == [] {
      assert run + more == more && [] + Replies(w, more) == Replies(w, more);
    } else {
      assert (run + more)[1..] == run[1..] + more;
      if run[0].Turn? {
        Resumed(w, run[1..], more);
      } else {
        var next := Next(w, run[0].read, run[0].at);
        Resumed(next, run[1..], more);
        assert Reply(w, run[0].read) + (Replies(next, run[1..]) + Replies(WatchAfter(w, run), more))
            == Reply(w, run[0].read) + Replies(next, run[1..]) + Replies(WatchAfter(w, run), more);
      }
    }
  }

  lemma {:induction false} One(w: Watch, step: Step)
    requires step.Settled?
    ensures WatchAfter(w, [step]) == Next(w, step.read, step.at) && Replies(w, [step]) == Reply(w, step.read)
  {
    assert [step][1..] == [] && Reply(w, step.read) + [] == Reply(w, step.read);
  }

  /** The tokens of the pongs among lines sent. */
  function PongsOf(sent: seq<Sent>): seq<string> {
    if sent == [] then [] else (if sent[0].Pong? then [sent[0].token] else []) + PongsOf(sent[1..])
  }

  /** The tokens of the pings heard in a run. */
  function PingsOf(run: seq<Step>): seq<string>
    decreases |run|
  {
    if run == [] then []
    else
      var step := run[0];
      (if step.Settled? && step.read.Line? && step.read.message.Some? && step.read.message.value.command == "PING"
       then [if step.read.message.value.params == [] then "" else step.read.message.value.params[0]] else [])
      + PingsOf(run[1..])
  }

  lemma {:induction false} PongsOfBoth(a: seq<Sent>, b: seq<Sent>)
    ensures PongsOf(a + b) == PongsOf(a) + PongsOf(b)
  {
    if a == [] {
      assert a + b == b && [] + PongsOf(b) == PongsOf(b);
    } else {
      PongsOfBoth(a[1..], b);
      assert (a + b)[1..] == a[1..] + b;
      Glue(if a[0].Pong? then [a[0].token] else [], PongsOf(a[1..]), PongsOf(b));
    }
  }

  lemma {:induction false} ReplyPongs(w: Watch, step: Step)
    requires step.Settled?
    ensures PongsOf(Reply(w, step.read)) == PingsOf([step])
  {
    var reply := Reply(w, step.read);
    assert [step][1..] == [];
    assert |reply| == 1 ==> reply[1..] == [];
  }

  lemma {:induction false} PingsOfFirst(run: seq<Step>)
    requires run != []
    ensures PingsOf(run) == PingsOf([run[0]]) + PingsOf(run[1..])
  {
    assert [run[0]][1..] == [];
  }

  /** Over every run, each ping is answered with its own token, in order, and nothing
      else is. */
  lemma {:induction false} PingsAreAnswered(w: Watch, run: seq<Step>)
    ensures PongsOf(Replies(w, run)) == PingsOf(run)
    decreases |run|
  {
    if run != [] {
      PingsOfFirst(run);
      if run[0].Turn? {
        PingsAreAnswered(w, run[1..]);
        assert PingsOf([run[0]]) == [] && [] + PingsOf(run[1..]) == PingsOf(run[1..]);
      } else {
        var next := Next(w, run[0].read, run[0].at);
        PingsAreAnswered(next, run[1..]);
        ReplyPongs(w, run[0]);
        PongsOfBoth(Reply(w, run[0].read), Replies(next, run[1..]));
      }
    }
  }

  /** And whatever is asked is the client's own question. */
  lemma {:induction false} QuestionsAreOwn(w: Watch, run: seq<Step>)
    ensures forall sent | sent in Replies(w, run) && sent.Ping? :: sent.token == "e6irc-keepalive"
    decreases |run|
  {
    if run != [] {
      QuestionsAreOwn(if run[0].Turn? then w else Next(w, run[0].read, run[0].at), run[1..]);
    }
  }

  // ---- a silent server is caught, however much is typed

  /** Every bounded read is settled or abandoned by its deadline, or at once when
      that is past. */
  ghost predicate Prompt(w: Watch, now: nat, run: seq<Step>)
    decreases |run|
  {
    run == [] ||
      (var step := run[0];
       && step.at <= Max(now, w.deadline)
       && Prompt(if step.Settled? then Next(w, step.read, step.at) else w, step.at, run[1..]))
  }

  /** When the last step was, or `now` when there was none. */
  function EndOf(now: nat, run: seq<Step>): nat {
    if run == [] then now else run[|run| - 1].at
  }

  /** The deadline is one window after the last hearing, or two with the probe sent
      between; and it is not past. */
  ghost predicate OnTime(w: Watch, heard: nat, now: nat) {
    w.deadline == heard + (if w.probed then 2 else 1) * w.window && now <= w.deadline
  }

  /** No deadline passes unnoticed: whatever is typed and whenever, the server is
      never waited for longer than two windows after it was last heard. */
  lemma {:induction false} RunIsOnTime(w: Watch, heard: nat, now: nat, run: seq<Step>)
    requires OnTime(w, heard, now) && Possible(w, now, run) && Prompt(w, now, run)
    ensures OnTime(WatchAfter(w, run), LastHeard(heard, run), EndOf(now, run)) && WatchAfter(w, run).window == w.window
    decreases |run|
  {
    if run != [] {
      var step := run[0];
      var next := if step.Settled? then Next(w, step.read, step.at) else w;
      RunIsOnTime(next, if step.Settled? && step.read.Line? then step.at else heard, step.at, run[1..]);
    }
  }

  /** For every run of reads and local turns: no step of it is later than two
      windows after the server was last heard, nor is the next deadline; and when
      the next lapse declares the server gone, that is at exactly two windows. */
  lemma {:induction false} CaughtWithinTwoWindows(window: nat, began: nat, run: seq<Step>)
    requires Possible(Begin(window, began), began, run) && Prompt(Begin(window, began), began, run)
    ensures EndOf(began, run) <= LastHeard(began, run) + 2 * window
    ensures var w := WatchAfter(Begin(window, began), run);
            && w.deadline <= LastHeard(began, run) + 2 * window
            && (Outcome(w, Lapsed) == ServerGone ==> w.deadline == LastHeard(began, run) + 2 * window)
  {
    RunIsOnTime(Begin(window, began), began, began, run);
  }

  // ---- the watch a client keeps

  class Keepalive {
    const window: nat
    var deadline: nat
    var probed: bool
    var sent: seq<Sent>
    /** How many more lines can be written before the connection breaks. */
    var writes: nat

    function View(): Watch
      reads this
    {
      Watch(window, deadline, probed)
    }

    constructor (window: nat, now: nat, writes: nat)
      ensures View() == Begin(window, now) && sent == [] && this.writes == writes
    {
      this.window, deadline, probed, sent, this.writes := window, now + window, false, [], writes;
    }

    /** Write one line; whether it could be. */
    method Send(line: Sent) returns (written: bool)
      modifies this`sent, this`writes
      ensures written == (old(writes) > 0)
      ensures sent == old(sent) + (if written then [line] else []) && writes == old(writes) - (if written then 1 else 0)
    {
      if writes == 0 {
        assert sent + [] == sent;
        return false;
      }
      sent, writes := sent + [line], writes - 1;
      return true;
    }

    method OnHeard(now: nat)
      modifies this`deadline, this`probed
      ensures View() == HeardAt(old(View()), now)
    {
      deadline := now + window;
      probed := false;
    }

    /** Whether a silent window means the server is gone. */
    method OnSilent(now: nat) returns (dead: bool)
      modifies this`deadline, this`probed
      ensures View() == SilentAt(old(View()), now) && dead == old(probed)
    {
      if probed {
        return true;
      }
      probed := true;
      deadline := now + window;
      return false;
    }

    /** One bounded read beside local input: a line that is `ready`, a `turn` of local
        input that abandons the read, or the deadline, whichever is first. However
        it ends, the watch is as it was: what abandons a read restarts nothing. */
    method Bound(now: nat, ready: Option<(Read, nat)>, turn: Option<nat>, turnFirst: bool) returns (step: Step)
      requires ready.Some? ==> now <= ready.value.1 && !ready.value.0.Lapsed?
      requires turn.Some? ==> now <= turn.value
      ensures now <= step.at <= Max(now, deadline)
      ensures step.Settled? && step.read.Lapsed? ==> step.at == Max(now, deadline)
      ensures step.Settled? && !step.read.Lapsed? ==> ready == Some((step.read, step.at)) && (turn.Some? ==> step.at <= turn.value)
      ensures step.Turn? ==> turn == Some(step.at) && (ready.Some? ==> step.at <= ready.value.1)
      ensures Prompt(View(), now, [step]) && (deadline <= step.at || !(step.Settled? && step.read.Lapsed?))
    {
      var until := Max(now, deadline);
      if ready.Some? && ready.value.1 <= until && (turn.None? || ready.value.1 < turn.value || (ready.value.1 == turn.value && !turnFirst)) {
        return Settled(ready.value.0, ready.value.1);
      }
      if turn.Some? && turn.value <= until {
        return Turn(turn.value);
      }
      return Settled(Lapsed, until);
    }

    /** Settle one read: answer a server `PING`, swallow the answer to this
        client's own probe, probe after a first silent window, and give up after
        a second; a line that cannot be written ends it too. */
    method Settle(read: Read, now: nat) returns (heard: Heard)
      modifies this
      ensures View() == Next(old(View()), read, now)
      ensures heard == if |Reply(old(View()), read)| <= old(writes) then Outcome(old(View()), read) else WriteFailed
      ensures sent == old(sent) + if heard.WriteFailed? then [] else Reply(old(View()), read)
      ensures writes == old(writes) - if heard.WriteFailed? then 0 else |Reply(old(View()), read)|
      ensures heard.WriteFailed? ==> old(writes) == 0 && Reply(old(View()), read) != []
    {
      assert sent + [] == sent;
      match read
      case Lapsed =>
        var dead := OnSilent(now);
        if dead {
          return ServerGone;
        }
        var written := Send(Ping(KEEPALIVE_TOKEN));
        return if written then Nothing else WriteFailed;
      case Failed => return ReadFailed;
      case Ended => return Closed;
      case Line(message) =>
        OnHeard(now);
        if message.Some? {
          var m := message.value;
          if m.command == "PING" {
            var written := Send(Pong(if m.params == [] then "" else m.params[0]));
            return if written then Nothing else WriteFailed;
          }
          if IsKeepaliveAnswer(m) {
            return Nothing;
          }
        }
        return Event(read);
    }

    /** Read until there is a line for the caller, the session ends, or the reads
        at hand run out: what was read, and answered. */
    method NextLine(inputs: seq<(Read, nat)>) returns (heard: Heard, ghost run: seq<Step>)
      modifies this
      ensures |run| <= |inputs| && forall i | 0 <= i < |run| :: run[i] == Settled(inputs[i].0, inputs[i].1)
      ensures View() == WatchAfter(old(View()), run)
      ensures heard.Nothing? ==> |run| == |inputs|
      ensures !heard.Nothing? && !heard.WriteFailed? ==>
                run != [] && heard == Outcome(WatchAfter(old(View()), run[..|run| - 1]), run[|run| - 1].read)
      ensures !heard.WriteFailed? ==> sent == old(sent) + Replies(old(View()), run)
      ensures heard.WriteFailed? ==> run != [] && sent == old(sent) + Replies(old(View()), run[..|run| - 1])
    {
      run := [];
      var i := 0;
      assert sent + [] == sent;
      while i < |inputs|
        invariant 0 <= i <= |inputs| && |run| == i
        invariant forall k | 0 <= k < i :: run[k] == Settled(inputs[k].0, inputs[k].1)
        invariant View() == WatchAfter(old(View()), run) && sent == old(sent) + Replies(old(View()), run)
      {
        ghost var before, step := run, Settled(inputs[i].0, inputs[i].1);
        Resumed(old(View()), before, [step]);
        One(View(), step);
        OnceMore(old(sent), Replies(old(View()), before), Reply(View(), step.read));
        heard := Settle(inputs[i].0, inputs[i].1);
        run := run + [step];
        assert run[..|run| - 1] == before;
        if !heard.Nothing? {
          return;
        }
        i := i + 1;
      }
      return Nothing, run;
    }
  }

  lemma {:induction false} OnceMore(a: seq<Sent>, b: seq<Sent>, c: seq<Sent>)
    ensures a + (b + c) == a + b + c && a + b + [] == a + b
  {
  }
}
