/**
  Registering with a password over SASL against a server that may answer
  anything, at any time, or fail on any read or write. A trace records every line
  sent and heard; a watch over the trace says what a run may never do.
 */
module SaslRegistration {
  import opened Wrappers
  import opened Octets
  import Base64
  import SaslChunks
  import Ledger = CapabilityLedger

  type Text = seq<int>

  // ---- mechanisms

  datatype Hash = Sha256 | Sha512

  datatype Mechanism = Scram(hash: Hash) | Plain

  function NameOf(m: Mechanism): string {
    match m
    case Scram(Sha512) => "SCRAM-SHA-512"
    case Scram(Sha256) => "SCRAM-SHA-256"
    case Plain => "PLAIN"
  }

  function Strength(m: Mechanism): nat {
    match m
    case Scram(Sha512) => 2
    case Scram(Sha256) => 1
    case Plain => 0
  }

  const PASSWORD_NAMES: seq<string> := ["SCRAM-SHA-512", "SCRAM-SHA-256", "PLAIN"]

  type Table = map<string, Option<string>>

  /** The comma-separated entries of a mechanism list. */
  function Entries(s: string): seq<string>
    decreases |s|
  {
    var at := PositionOf(s, ',');
    if at == |s| then [s] else [s[..at]] + Entries(s[at + 1..])
  }

  /** The mechanisms the server named; none when it named none. */
  function Named(table: Table): Option<seq<string>> {
    if "sasl" in table && table["sasl"].Some? && table["sasl"].value != "" then Some(Entries(table["sasl"].value)) else None
  }

  /** No list is known, or it names one of `acceptable`. */
  predicate IsOffered(table: Table, acceptable: seq<string>) {
    Named(table).Some? ==> exists i | 0 <= i < |acceptable| :: acceptable[i] in Named(table).value
  }

  /** The strongest password mechanism named, and `PLAIN` for a server that named
      none of them. */
  function Strongest(table: Table): Mechanism {
    if Named(table).None? then Plain
    else if NameOf(Scram(Sha512)) in Named(table).value then Scram(Sha512)
    else if NameOf(Scram(Sha256)) in Named(table).value then Scram(Sha256)
    else Plain
  }

  /** The mechanisms weaker than `m` the server offers, strongest first. */
  function Weaker(table: Table, m: Mechanism): seq<Mechanism>
    decreases Strength(m)
  {
    match m
    case Plain => []
    case Scram(Sha256) => if IsOffered(table, [NameOf(Plain)]) then [Plain] else []
    case Scram(Sha512) => (if IsOffered(table, [NameOf(Scram(Sha256))]) then [Scram(Sha256)] else []) + Weaker(table, Scram(Sha256))
  }

  /** What the strongest is, by the names alone: as strong as every mechanism named
      and itself among them; `PLAIN` when none is, or none is known to be. */
  ghost predicate IsBest(table: Table, m: Mechanism) {
    match Named(table)
    case None => m == Plain
    case Some(names) =>
      && (forall n: Mechanism :: NameOf(n) in names ==> Strength(n) <= Strength(m))
      && (NameOf(m) in names || (m == Plain && forall n: Mechanism :: NameOf(n) !in names))
  }

  /** The strongest is best, and nothing else is. */
  lemma {:induction false} StrongestIff(table: Table, m: Mechanism)
    ensures IsBest(table, m) <==> m == Strongest(table)
  {
    StrongestIsBest(table);
    if IsBest(table, m) {
      SameStrength(m, Strongest(table));
    }
  }

  lemma {:induction false} StrongestIsBest(table: Table)
    ensures IsBest(table, Strongest(table))
  {
    if Named(table).Some? {
      var names := Named(table).value;
      forall n: Mechanism | NameOf(n) in names ensures Strength(n) <= Strength(Strongest(table)) {
        if n.Scram? {
          assert n == Scram(n.hash);
        }
      }
    }
  }

  /** The password mechanisms by strength. */
  lemma {:induction false} SameStrength(m: Mechanism, n: Mechanism)
    ensures Strength(m) == Strength(n) ==> m == n
    ensures NameOf(m) == PASSWORD_NAMES[2 - Strength(m)] && (NameOf(m) == NameOf(n) ==> m == n)
  {
    assert PASSWORD_NAMES[0] == "SCRAM-SHA-512" && PASSWORD_NAMES[1] == "SCRAM-SHA-256" && PASSWORD_NAMES[2] == "PLAIN";
    assert PASSWORD_NAMES[0][0] == 'S' && PASSWORD_NAMES[1][0] == 'S' && PASSWORD_NAMES[2][0] == 'P';
    assert PASSWORD_NAMES[0][10] == '5' && PASSWORD_NAMES[1][10] == '2';
  }

  /** The weaker ones are all that are weaker and offered. */
  lemma {:induction false} WeakerIff(table: Table, m: Mechanism, n: Mechanism)
    ensures n in Weaker(table, m) <==> Strength(n) < Strength(m) && IsOffered(table, [NameOf(n)])
  {
  }

  /** A mechanism is offered when no list is known or its name is an entry of it. */
  lemma {:induction false} OfferedIff(table: Table, m: Mechanism)
    ensures IsOffered(table, [NameOf(m)]) <==> Named(table).None? || NameOf(m) in Named(table).value
  {
    assert [NameOf(m)][0] == NameOf(m);
  }

  /** Entries with commas between them. */
  function WithCommas(entries: seq<string>): string {
    if entries == [] then [] else if |entries| == 1 then entries[0] else entries[0] + [','] + WithCommas(entries[1..])
  }

  /** The entries are the stretches between the commas, empty ones too. */
  lemma {:induction false} EntriesApart(s: string)
    ensures Entries(s) != [] && WithCommas(Entries(s)) == s
    ensures forall i | 0 <= i < |Entries(s)| :: ',' !in Entries(s)[i]
    decreases |s|
  {
    var at := PositionOf(s, ',');
    CommaIsFirst(s);
    if at < |s| {
      EntriesApart(s[at + 1..]);
      assert s == s[..at] + [','] + s[at + 1..];
    } else {
      assert s[..at] == s;
    }
  }

  lemma {:induction false} CommaIsFirst(s: string)
    ensures var at := PositionOf(s, ','); ',' !in s[..at] && (at < |s| ==> s[at] == ',')
  {
    if s != [] && s[0] != ',' {
      CommaIsFirst(s[1..]);
      var at := PositionOf(s[1..], ',');
      assert s[..at + 1] == [s[0]] + s[1..][..at];
    }
  }

  /** Each offer weaker than the one before it. */
  predicate Weakens(offers: seq<Mechanism>) {
    forall i | 0 < i < |offers| :: Strength(offers[i - 1]) > Strength(offers[i])
  }

  // ---- what is said

  datatype Message = Message(command: string, params: seq<string>)

  /** What a read comes to: a message, nothing for longer than any bound on the
      wait, or a failure. */
  datatype Input = Arrives(message: Message) | Silence | Fails

  /** The lines a registration sends. The texts of `AUTHENTICATE` lines say what
      they are for: a mechanism, a message of an exchange that carries no proof of
      the password, or one that does. */
  datatype Line = ServerPassword | CapLs | CapReq(names: seq<string>) | CapEnd | Nick(name: string) | User | Pong(token: string)
                | Offer(mechanism: Mechanism) | Abort | Opening(text: Text) | Credential(mechanism: Mechanism, text: Text) | Confirm

  datatype Entry = Sent(line: Line) | Heard(message: Message)

  // ---- the watch

  /** What was said of one mechanism since it was offered: the opening's lines; the
      challenge lines heard in all by the last line of the opening, by the last of
      the credential, and by the confirmation; and whether nothing is left to say but
      the server's verdict. */
  datatype Said = Said(opening: seq<Text>, atOpening: seq<Text>, atCredential: seq<Text>, atConfirm: Option<seq<Text>>, whole: bool)

  /** What a trace comes to. */
  datatype Watch = Watch(
    offers: seq<Mechanism>,
    /** The lines of the credential, and whether the last entry was one. */
    credential: seq<Text>,
    open: bool,
    /** A 903 was heard once the exchange left nothing more to send. */
    confirmed: bool,
    ended: bool,
    nicks: nat,
    /** The texts of the `AUTHENTICATE` lines heard. */
    challenges: seq<Text>,
    said: Said,
    /** No rule was broken so far. */
    lawful: bool)

  const START: Watch := Watch([], [], false, false, false, 0, [], Said([], [], [], None, false), true)

  /** The text of an `AUTHENTICATE` line. */
  function Chunk(m: Message): seq<Text> {
    if m.command == "AUTHENTICATE" then [Codes(First(m))] else []
  }

  /** What a capability listing names. */
  function ListOf(m: Message): seq<seq<string>> {
    if IsListing(m) then [Words(Last(m))] else []
  }

  /** One more entry, and the rules: a mechanism is offered only before any
      credential; a credential is for the mechanism offered last and its lines
      follow one another with nothing between; the server's proof is confirmed
      once, after a credential; negotiation ends once, after the server confirmed
      a credential. */
  function Step(w: Watch, e: Entry): Watch {
    match e
    case Heard(m) =>
      w.(open := false, confirmed := w.confirmed || (m.command == "903" && w.said.whole),
         challenges := w.challenges + Chunk(m))
    case Sent(Offer(m)) =>
      w.(open := false, offers := w.offers + [m], said := Said([], w.challenges, [], None, false), lawful := w.lawful && w.credential == [])
    case Sent(Opening(text)) =>
      w.(open := false, said := w.said.(opening := w.said.opening + [text], atOpening := w.challenges))
    case Sent(Credential(m, text)) =>
      w.(open := true, credential := w.credential + [text], said := w.said.(atCredential := w.challenges, whole := m.Plain?),
         lawful := && w.lawful && w.offers != [] && w.offers[|w.offers| - 1] == m && (w.credential == [] || w.open))
    case Sent(Confirm) =>
      w.(open := false, said := w.said.(atConfirm := Some(w.challenges), whole := true),
         lawful := w.lawful && w.credential != [] && w.said.atConfirm.None?)
    case Sent(CapEnd) => w.(open := false, ended := true, lawful := w.lawful && w.confirmed && !w.ended)
    case Sent(Nick(_)) => w.(open := false, nicks := w.nicks + 1)
    case Sent(_) => w.(open := false)
  }

  function Watched(trace: seq<Entry>): Watch
    decreases |trace|, 1
  {
    if trace == [] then START else LastWatched(trace)
  }

  function LastWatched(trace: seq<Entry>): Watch
    requires trace != []
    decreases |trace|, 0
  {
    Step(Watched(trace[..|trace| - 1]), trace[|trace| - 1])
  }

  lemma {:induction false} WatchedLast(trace: seq<Entry>)
    requires trace != []
    ensures Watched(trace) == Step(Watched(trace[..|trace| - 1]), trace[|trace| - 1])
  {
    assert Watched(trace) == LastWatched(trace);
  }

  lemma {:induction false} OneMore(trace: seq<Entry>, e: Entry)
    ensures Watched(trace + [e]) == Step(Watched(trace), e)
  {
    WatchedLast(trace + [e]);
    assert (trace + [e])[..|trace|] == trace;
  }

  /** Everything a run may do besides offering and authenticating. */
  predicate Waits(before: Watch, after: Watch) {
    && after.offers == before.offers
    && after.credential == before.credential
    && after.said == before.said
    && after.ended == before.ended
    && after.lawful == before.lawful
    && (before.confirmed ==> after.confirmed)
    && (!before.said.whole ==> after.confirmed == before.confirmed)
  }

  // ---- what was known when

  /** What the client knew as it sent what it sent: the listings heard by its first
      request; by each offer, the mechanisms a 908 had named since the one before
      it; both that and what was named since the last offer when it gave its name;
      whether it had begun to prove the password; and whether it ended negotiation
      only unrejected. */
  datatype Known = Known(
    discovered: Option<seq<seq<string>>>,
    learned: seq<Option<string>>,
    identified: Option<(seq<Option<string>>, Option<string>)>,
    proving: bool,
    fair: bool)

  /** That, and what was heard: the listings, the mechanisms named last since the last
      offer, and whether a rejection came since the first line of a credential. */
  datatype Ear = Ear(known: Known, listed: seq<seq<string>>, named: Option<string>, rejected: bool)

  const SILENCE: Ear := Ear(Known(None, [], None, false, true), [], None, false)

  /** The numerics that reject an authentication. */
  predicate IsRejection(m: Message) {
    m.command == "902" || m.command == "904" || m.command == "905" || m.command == "906" || m.command == "907"
  }

  /** The replies no registration goes on after: an error, a nickname or user name that is
      not allowed, a wrong password, a ban. */
  predicate IsFinal(m: Message) {
    m.command == "ERROR" || m.command == "432" || m.command == "468" || m.command == "464" || m.command == "465"
  }

  /** No such reply was heard. */
  predicate Unrefused(trace: seq<Entry>)
    decreases |trace|, 1
  {
    trace == [] || LastUnrefused(trace)
  }

  predicate LastUnrefused(trace: seq<Entry>)
    requires trace != []
    decreases |trace|, 0
  {
    var e := trace[|trace| - 1];
    !(e.Heard? && IsFinal(e.message)) && Unrefused(trace[..|trace| - 1])
  }

  lemma {:induction false} OneMoreUnrefused(trace: seq<Entry>, e: Entry)
    ensures Unrefused(trace + [e]) <==> Unrefused(trace) && !(e.Heard? && IsFinal(e.message))
  {
    assert (trace + [e])[..|trace|] == trace;
    assert Unrefused(trace + [e]) == LastUnrefused(trace + [e]);
  }

  lemma {:induction false} UnrefusedIff(trace: seq<Entry>)
    ensures Unrefused(trace) <==> forall i | 0 <= i < |trace| && trace[i].Heard? :: !IsFinal(trace[i].message)
  {
    if trace != [] {
      var front, e := trace[..|trace| - 1], trace[|trace| - 1];
      UnrefusedIff(front);
      assert trace == front + [e];
      OneMoreUnrefused(front, e);
      assert forall i | 0 <= i < |front| :: front[i] == trace[i];
    }
  }

  /** A 908 with its list of mechanisms. */
  predicate NamesMechanisms(m: Message) {
    m.command == "908" && |m.params| > 1
  }

  function Hear(ear: Ear, e: Entry): Ear {
    var known := ear.known;
    match e
    case Heard(m) =>
      ear.(listed := ear.listed + ListOf(m), named := if NamesMechanisms(m) then Some(m.params[1]) else ear.named,
           rejected := ear.rejected || (known.proving && IsRejection(m)))
    case Sent(CapReq(_)) => ear.(known := known.(discovered := if known.discovered.None? then Some(ear.listed) else known.discovered))
    case Sent(Offer(_)) => ear.(known := known.(learned := known.learned + [ear.named]), named := None)
    case Sent(User) => ear.(known := known.(identified := if known.identified.None? then Some((known.learned, ear.named)) else known.identified))
    case Sent(Credential(_, _)) => ear.(known := known.(proving := true))
    case Sent(CapEnd) => ear.(known := known.(fair := known.fair && !ear.rejected))
    case Sent(_) => ear
  }

  function HeardIn(trace: seq<Entry>): Ear
    decreases |trace|, 1
  {
    if trace == [] then SILENCE else LastHeardIn(trace)
  }

  function LastHeardIn(trace: seq<Entry>): Ear
    requires trace != []
    decreases |trace|, 0
  {
    Hear(HeardIn(trace[..|trace| - 1]), trace[|trace| - 1])
  }

  lemma {:induction false} HeardLast(trace: seq<Entry>)
    requires trace != []
    ensures HeardIn(trace) == Hear(HeardIn(trace[..|trace| - 1]), trace[|trace| - 1])
  {
    assert HeardIn(trace) == LastHeardIn(trace);
  }

  lemma {:induction false} OneMoreHeard(trace: seq<Entry>, e: Entry)
    ensures HeardIn(trace + [e]) == Hear(HeardIn(trace), e)
  {
    HeardLast(trace + [e]);
    assert (trace + [e])[..|trace|] == trace;
  }

  /** Nothing of that was sent, and before a credential no rejection counts. */
  predicate Listens(before: Ear, after: Ear) {
    after.known == before.known && (!before.known.proving ==> after.rejected == before.rejected)
  }


  /** A request was sent besides. */
  predicate Asks(before: Ear, after: Ear) {
    && after.known == before.known.(discovered := after.known.discovered)
    && (before.known.discovered.Some? ==> after.known.discovered == before.known.discovered)
    && (!before.known.proving ==> after.rejected == before.rejected)
  }

  /** A mechanism was offered besides. */
  predicate Tries(before: Ear, after: Ear) {
    && after.known == before.known.(learned := after.known.learned)
    && (!before.known.proving ==> after.rejected == before.rejected)
  }

  /** A line of a credential was sent besides. */
  predicate Proving(before: Ear, after: Ear) {
    after.known == before.known.(proving := after.known.proving)
  }

  /** What was known at the first request and by the client's name, and whether
      negotiation ended unrejected. */
  predicate SameBefore(before: Known, after: Known) {
    after.discovered == before.discovered && after.identified == before.identified && after.fair == before.fair
  }

  // ---- what lawful means, of the trace itself

  predicate IsCredential(e: Entry) {
    e.Sent? && e.line.Credential?
  }

  predicate IsOffer(e: Entry) {
    e.Sent? && e.line.Offer?
  }

  predicate IsSuccess(e: Entry) {
    e.Heard? && e.message.command == "903"
  }

  lemma {:induction false} LawfulSoFar(trace: seq<Entry>, n: nat)
    requires n <= |trace| && Watched(trace).lawful
    ensures Watched(trace[..n]).lawful
    decreases |trace|
  {
    if n < |trace| {
      LawfulSoFar(trace[..|trace| - 1], n);
      assert trace[..|trace| - 1][..n] == trace[..n];
    } else {
      assert trace[..n] == trace;
    }
  }

  lemma {:induction false} LawfulAt(trace: seq<Entry>, j: nat)
    requires j < |trace| && Watched(trace).lawful
    ensures Step(Watched(trace[..j]), trace[j]).lawful
  {
    LawfulSoFar(trace, j + 1);
    OneMore(trace[..j], trace[j]);
    assert trace[..j + 1] == trace[..j] + [trace[j]];
  }

  /** What one lawful entry does to the credential and what was said. */
  lemma {:induction false} LawfulStep(w: Watch, e: Entry)
    requires Step(w, e).lawful
    ensures w.lawful
    ensures IsOffer(e) ==> w.credential == []
    ensures IsCredential(e) ==> (w.credential == [] || w.open) && Step(w, e).said.atCredential == w.challenges
    ensures !IsCredential(e) ==> Step(w, e).credential == w.credential
    ensures !IsCredential(e) && w.credential != [] ==> Step(w, e).said.atCredential == w.said.atCredential
    ensures e == Sent(Confirm) ==> w.credential != [] && Step(w, e).said.atConfirm == Some(w.challenges)
    ensures e != Sent(Confirm) && Step(w, e).said.atConfirm.Some? ==> Step(w, e).said.atConfirm == w.said.atConfirm
    ensures e == Sent(CapEnd) ==> w.confirmed
  {
  }

  predicate HasCredential(trace: seq<Entry>) {
    exists i | 0 <= i < |trace| :: IsCredential(trace[i])
  }

  lemma {:induction false} HasOneMore(trace: seq<Entry>, e: Entry)
    ensures HasCredential(trace + [e]) <==> HasCredential(trace) || IsCredential(e)
  {
    assert (trace + [e])[|trace|] == e;
    assert forall i | 0 <= i < |trace| :: (trace + [e])[i] == trace[i];
    if HasCredential(trace) {
      var i :| 0 <= i < |trace| && IsCredential(trace[i]);
      assert IsCredential((trace + [e])[i]);
    }
  }

  lemma {:induction false} CredentialStep(w: Watch, e: Entry)
    ensures Step(w, e).credential != [] <==> w.credential != [] || IsCredential(e)
    ensures Step(w, e).open <==> IsCredential(e)
  {
  }

  /** The watch holds a credential exactly when one was sent, and is open exactly
      when that was last. */
  lemma {:induction false} CredentialSeen(trace: seq<Entry>)
    ensures Watched(trace).credential != [] <==> HasCredential(trace)
    ensures Watched(trace).open ==> trace != [] && IsCredential(trace[|trace| - 1])
  {
    if trace != [] {
      var last, rest := trace[|trace| - 1], trace[..|trace| - 1];
      assert trace == rest + [last];
      CredentialSeen(rest);
      CredentialStep(Watched(rest), last);
      HasOneMore(rest, last);
    }
  }

  /** After a credential no mechanism is offered. */
  lemma {:induction false} NoOfferAfterCredential(trace: seq<Entry>, i: nat, j: nat)
    requires i < j < |trace| && Watched(trace).lawful && IsCredential(trace[i])
    ensures !IsOffer(trace[j])
  {
    assert IsCredential(trace[..j][i]);
    CredentialSeen(trace[..j]);
    LawfulAt(trace, j);
    LawfulStep(Watched(trace[..j]), trace[j]);
  }

  /** The lines of the credential are one step: nothing is sent or heard between
      them. */
  lemma {:induction false} CredentialIsOneStep(trace: seq<Entry>, i: nat, j: nat, k: nat)
    requires i < k < j < |trace| && Watched(trace).lawful && IsCredential(trace[i]) && IsCredential(trace[j])
    ensures IsCredential(trace[k])
    decreases j
  {
    assert IsCredential(trace[..j][i]);
    CredentialSeen(trace[..j]);
    LawfulAt(trace, j);
    LawfulStep(Watched(trace[..j]), trace[j]);
    if k < j - 1 {
      CredentialIsOneStep(trace, i, j - 1, k);
    }
  }

  /** A credential line at `i` and a 903 at `k` after it, for SCRAM with the
      confirmation of the server's own proof between them. */
  ghost predicate Succeeds(trace: seq<Entry>, i: nat, k: nat) {
    && i < k < |trace| && IsCredential(trace[i]) && IsSuccess(trace[k])
    && (trace[i].line.mechanism.Scram? ==> exists c :: i < c < k && trace[c] == Sent(Confirm))
  }

  /** Negotiation ends only after the server's verdict on an exchange that was whole. */
  lemma {:induction false} EndFollowsSuccess(trace: seq<Entry>, j: nat)
    requires j < |trace| && Watched(trace).lawful && trace[j] == Sent(CapEnd)
    ensures exists i: nat, k: nat :: k < j && Succeeds(trace, i, k)
  {
    LawfulAt(trace, j);
    LawfulStep(Watched(trace[..j]), trace[j]);
    var i, k := ConfirmedBy(trace[..j], Watched(trace[..j]));
    StillSucceeds(trace, j, i, k);
  }

  /** Once a line of the credential is sent, no rejection comes before the end of
      negotiation. */
  lemma {:induction false} NoRejectionBeforeEnd(trace: seq<Entry>, i: nat, n: nat, j: nat)
    requires i < n < j < |trace| && HeardIn(trace).known.fair && IsCredential(trace[i]) && trace[j] == Sent(CapEnd)
    ensures trace[n].Heard? ==> !IsRejection(trace[n].message)
  {
    ProvingAfter(trace, i, n);
    UnrejectedBefore(trace, j);
    HeardOn(trace, n);
    HearStep(HeardIn(trace[..n]), trace[n]);
    Stays(trace, n + 1, j);
  }

  lemma {:induction false} ProvingAfter(trace: seq<Entry>, i: nat, n: nat)
    requires i < n <= |trace| && IsCredential(trace[i])
    ensures HeardIn(trace[..n]).known.proving
  {
    HeardOn(trace, i);
    HearStep(HeardIn(trace[..i]), trace[i]);
    Stays(trace, i + 1, n);
  }

  lemma {:induction false} UnrejectedBefore(trace: seq<Entry>, j: nat)
    requires j < |trace| && trace[j] == Sent(CapEnd) && HeardIn(trace).known.fair
    ensures !HeardIn(trace[..j]).rejected
  {
    HeardOn(trace, j);
    HearStep(HeardIn(trace[..j]), trace[j]);
    Stays(trace, j + 1, |trace|);
    assert trace[..|trace|] == trace;
  }

  lemma {:induction false} HearStep(ear: Ear, e: Entry)
    ensures IsCredential(e) || ear.known.proving ==> Hear(ear, e).known.proving
    ensures ear.rejected || (ear.known.proving && e.Heard? && IsRejection(e.message)) ==> Hear(ear, e).rejected
    ensures Hear(ear, e).known.fair ==> ear.known.fair && (e == Sent(CapEnd) ==> !ear.rejected)
  {
  }

  lemma {:induction false} HeardOn(trace: seq<Entry>, i: nat)
    requires i < |trace|
    ensures HeardIn(trace[..i + 1]) == Hear(HeardIn(trace[..i]), trace[i])
  {
    OneMoreHeard(trace[..i], trace[i]);
    assert trace[..i + 1] == trace[..i] + [trace[i]];
  }

  lemma {:induction false} Stays(trace: seq<Entry>, i: nat, j: nat)
    requires i <= j <= |trace|
    ensures HeardIn(trace[..i]).known.proving ==> HeardIn(trace[..j]).known.proving
    ensures HeardIn(trace[..i]).rejected ==> HeardIn(trace[..j]).rejected
    ensures HeardIn(trace[..j]).known.fair ==> HeardIn(trace[..i]).known.fair
    decreases j
  {
    if i < j {
      Stays(trace, i, j - 1);
      HeardOn(trace, j - 1);
      HearStep(HeardIn(trace[..j - 1]), trace[j - 1]);
    }
  }

  lemma {:induction false} StillSucceeds(trace: seq<Entry>, j: nat, i: nat, k: nat)
    requires j <= |trace| && Succeeds(trace[..j], i, k)
    ensures Succeeds(trace, i, k)
  {
    assert forall n | 0 <= n < j :: trace[..j][n] == trace[n];
    if trace[i].line.mechanism.Scram? {
      var c :| i < c < k && trace[..j][c] == Sent(Confirm);
      assert trace[c] == Sent(Confirm);
    }
  }

  lemma {:induction false} ConfirmStep(w: Watch, e: Entry)
    requires Step(w, e).confirmed
    ensures w.confirmed || (IsSuccess(e) && w.said.whole)
  {
  }

  lemma {:induction false} ConfirmedBy(trace: seq<Entry>, w: Watch) returns (i: nat, k: nat)
    requires w == Watched(trace) && w.confirmed && w.lawful
    ensures Succeeds(trace, i, k)
    decreases |trace|
  {
    var last, rest := trace[|trace| - 1], trace[..|trace| - 1];
    var before := Watched(rest);
    ConfirmStep(before, last);
    LawfulStep(before, last);
    if before.confirmed {
      i, k := ConfirmedBy(rest, before);
      StillSucceeds(trace, |rest|, i, k);
    } else {
      i := VerdictOn(trace, rest, before);
      k := |rest|;
    }
  }

  /** The credential was sent, and for SCRAM the server's own proof confirmed. */
  predicate IsWhole(w: Watch) {
    w.credential != [] && w.offers != [] && (w.offers[|w.offers| - 1].Plain? || w.said.atConfirm.Some?)
  }

  lemma {:induction false} WholeStep(w: Watch, e: Entry)
    requires Step(w, e).lawful && (w.said.whole ==> IsWhole(w)) && (w.credential != [] ==> w.offers != [])
    ensures Step(w, e).said.whole ==> IsWhole(Step(w, e))
    ensures Step(w, e).credential != [] ==> Step(w, e).offers != []
  {
    if !IsCredential(e) && !IsOffer(e) && e != Sent(Confirm) {
      AsideStep(w, e);
    }
  }

  lemma {:induction false} AsideStep(w: Watch, e: Entry)
    requires !IsCredential(e) && !IsOffer(e) && e != Sent(Confirm)
    ensures var next := Step(w, e);
            && next.offers == w.offers && next.credential == w.credential
            && next.said.whole == w.said.whole && next.said.atConfirm == w.said.atConfirm
  {
  }

  lemma {:induction false} WholeMeans(trace: seq<Entry>, w: Watch)
    requires w == Watched(trace) && w.lawful
    ensures (w.said.whole ==> IsWhole(w)) && (w.credential != [] ==> w.offers != [])
    decreases |trace|
  {
    if trace != [] {
      var last, rest := trace[|trace| - 1], trace[..|trace| - 1];
      LawfulStep(Watched(rest), last);
      WholeMeans(rest, Watched(rest));
      WholeStep(Watched(rest), last);
    }
  }

  lemma {:induction false} VerdictOn(trace: seq<Entry>, rest: seq<Entry>, w: Watch) returns (i: nat)
    requires trace != [] && rest == trace[..|trace| - 1] && w == Watched(rest) && w.lawful && w.said.whole && IsSuccess(trace[|rest|])
    ensures Succeeds(trace, i, |rest|)
  {
    assert forall n | 0 <= n < |rest| :: rest[n] == trace[n];
    WholeMeans(rest, w);
    if w.offers[|w.offers| - 1].Plain? {
      i := HeardByCredential(rest, w);
      CredentialFor(rest, w, i);
    } else {
      var c;
      i, c := ConfirmedAfterProof(rest, w);
      assert trace[c] == Sent(Confirm);
    }
  }

  predicate LastCredential(trace: seq<Entry>, i: nat) {
    i < |trace| && IsCredential(trace[i]) && forall k | i < k < |trace| :: !IsCredential(trace[k])
  }

  lemma {:induction false} StillLast(trace: seq<Entry>, e: Entry, i: nat)
    requires LastCredential(trace, i) && !IsCredential(e)
    ensures LastCredential(trace + [e], i) && (trace + [e])[..i] == trace[..i]
  {
    assert forall k | 0 <= k < |trace| :: (trace + [e])[k] == trace[k];
  }

  lemma {:induction false} NowLast(trace: seq<Entry>, e: Entry)
    requires IsCredential(e)
    ensures LastCredential(trace + [e], |trace|) && (trace + [e])[..|trace|] == trace
  {
  }

  /** The credential's last line, and the challenge lines heard by then. */
  ghost predicate CredentialAt(w: Watch, trace: seq<Entry>, i: nat) {
    LastCredential(trace, i) && w.said.atCredential == Watched(trace[..i]).challenges
  }

  lemma {:induction false} OffersStep(w: Watch, e: Entry)
    requires Step(w, e).lawful
    ensures w.lawful
    ensures IsCredential(e) ==> Step(w, e).offers != [] && Step(w, e).offers[|Step(w, e).offers| - 1] == e.line.mechanism
    ensures !IsCredential(e) && w.credential != [] ==> Step(w, e).offers == w.offers
  {
  }

  lemma {:induction false} LastInRest(trace: seq<Entry>, rest: seq<Entry>, i: nat)
    requires LastCredential(trace, i) && i < |trace| - 1 && rest == trace[..|trace| - 1]
    ensures LastCredential(rest, i) && rest[i] == trace[i] && !IsCredential(trace[|trace| - 1]) && HasCredential(rest)
  {
    assert forall k | 0 <= k < |rest| :: rest[k] == trace[k];
  }

  /** A credential is for the mechanism offered last. */
  lemma {:induction false} CredentialFor(trace: seq<Entry>, w: Watch, i: nat)
    requires w == Watched(trace) && w.lawful && LastCredential(trace, i)
    ensures w.offers != [] && w.offers[|w.offers| - 1] == trace[i].line.mechanism
    decreases |trace|
  {
    var last, rest := trace[|trace| - 1], trace[..|trace| - 1];
    var before := Watched(rest);
    OffersStep(before, last);
    if i < |rest| {
      LastInRest(trace, rest, i);
      CredentialSeen(rest);
      CredentialFor(rest, before, i);
    }
  }

  lemma {:induction false} HeardByCredential(trace: seq<Entry>, w: Watch) returns (i: nat)
    requires w == Watched(trace) && w.lawful && w.credential != []
    ensures CredentialAt(w, trace, i)
    decreases |trace|
  {
    var last, rest := trace[|trace| - 1], trace[..|trace| - 1];
    assert trace == rest + [last];
    var before := Watched(rest);
    LawfulStep(before, last);
    if IsCredential(last) {
      i := |rest|;
      NowLast(rest, last);
    } else {
      i := HeardByCredential(rest, before);
      StillLast(rest, last, i);
    }
  }

  /** The challenge that is confirmed came after the credential's last line and
      before the confirmation. */
  lemma {:induction false} ConfirmedAfterProof(trace: seq<Entry>, w: Watch) returns (i: nat, j: nat)
    requires w == Watched(trace) && w.lawful && w.said.atConfirm.Some?
    ensures CredentialAt(w, trace, i) && i < j < |trace| && trace[j] == Sent(Confirm)
    ensures w.said.atConfirm.value == Watched(trace[..j]).challenges
    decreases |trace|
  {
    var last, rest := trace[|trace| - 1], trace[..|trace| - 1];
    assert trace == rest + [last];
    var before := Watched(rest);
    LawfulStep(before, last);
    if last == Sent(Confirm) {
      i := HeardByCredential(rest, before);
      j := |rest|;
    } else {
      i, j := ConfirmedAfterProof(rest, before);
      assert (rest + [last])[..j] == rest[..j];
      ClosedAfter(rest, i);
    }
    StillLast(rest, last, i);
  }

  lemma {:induction false} ClosedAfter(trace: seq<Entry>, i: nat)
    requires LastCredential(trace, i) && i < |trace| - 1
    ensures !Watched(trace).open && Watched(trace).credential != []
  {
    CredentialSeen(trace);
    assert !IsCredential(trace[|trace| - 1]);
  }

  /** Offers that weaken step by step, after at most one of `PLAIN` to a server
      that had named no mechanism, are at most four. */
  predicate InOrder(offers: seq<Mechanism>) {
    Weakens(offers) || (offers != [] && offers[0] == Plain && Weakens(offers[1..]))
  }

  lemma {:induction false} FirstInOrder(m: Mechanism)
    ensures InOrder([]) && InOrder([m]) && InOrder([Plain, m]) && [] + [m] == [m] && [Plain] + [m] == [Plain, m]
  {
    assert [Plain, m][1..] == [m];
  }

  lemma {:induction false} AtMostThree(offers: seq<Mechanism>)
    requires Weakens(offers)
    ensures offers != [] ==> |offers| <= Strength(offers[0]) + 1
    ensures |offers| <= 3
  {
    if |offers| > 1 {
      var rest := offers[1..];
      forall i | 0 < i < |rest| ensures Strength(rest[i - 1]) > Strength(rest[i]) {
        assert rest[i - 1] == offers[i] && rest[i] == offers[i + 1];
        assert Strength(offers[(i + 1) - 1]) > Strength(offers[i + 1]);
      }
      AtMostThree(rest);
      assert Strength(offers[1 - 1]) > Strength(offers[1]);
    }
  }

  lemma {:induction false} AtMostFour(offers: seq<Mechanism>)
    requires InOrder(offers)
    ensures |offers| <= 4
  {
    if Weakens(offers) {
      AtMostThree(offers);
    } else {
      AtMostThree(offers[1..]);
    }
  }

  lemma {:induction false} WeakerWeakens(table: Table, m: Mechanism)
    ensures Weakens([m] + Weaker(table, m))
  {
  }

  lemma {:induction false} FrontWeakens(front: seq<Mechanism>, rest: seq<Mechanism>)
    requires Weakens(front + rest)
    ensures Weakens(front)
  {
    forall i | 0 < i < |front| ensures Strength(front[i - 1]) > Strength(front[i]) {
      assert (front + rest)[i - 1] == front[i - 1] && (front + rest)[i] == front[i];
    }
  }

  /** Offers that went on with weaker ones, in their order, after the strongest, are in
      order. */
  lemma {:induction false} FallsInOrder(before: seq<Mechanism>, offers: seq<Mechanism>, all: seq<Mechanism>, strongest: Mechanism)
    requires before == [strongest] || before == [Plain, strongest]
    requires Falls(before, offers, all) && Weakens([strongest] + all)
    ensures InOrder(offers)
  {
    var more := offers[|before|..];
    assert [strongest] + all == ([strongest] + more) + all[|more|..];
    FrontWeakens([strongest] + more, all[|more|..]);
    assert before == [strongest] ==> offers == [strongest] + more;
    assert before == [Plain, strongest] ==> offers[1..] == [strongest] + more;
  }

  lemma {:induction false} SameSize(keys: set<string>, table: Table)
    requires table.Keys == keys
    ensures |table| == |keys|
  {
  }

  lemma {:induction false} OneLonger(lines: seq<Text>, i: nat)
    requires i <= |lines|
    ensures i < |lines| ==> lines[..i] + [lines[i]] == lines[..i + 1]
    ensures i == |lines| ==> lines[..i] == lines
  {
  }

  /** A payload has at least one line. */
  lemma {:induction false} SomeLine(payload: Text)
    ensures SaslChunks.Lines(payload) != []
  {
    if payload == [] {
      assert SaslChunks.Lines(payload) == [SaslChunks.PLUS];
    }
  }

  /** The message was the last heard, with at most a nickname sent since. */
  predicate LastHeard(trace: seq<Entry>, m: Message) {
    || (trace != [] && trace[|trace| - 1] == Heard(m))
    || (|trace| > 1 && trace[|trace| - 2] == Heard(m) && trace[|trace| - 1].Sent? && trace[|trace| - 1].line.Nick?)
  }

  /** The server welcomed the client, as `name`. */
  ghost predicate Welcomed(trace: seq<Entry>, nick: string, name: string) {
    exists m: Message :: LastHeard(trace, m) && m.command == "001" && name == if m.params == [] then nick else m.params[0]
  }

  // ---- challenges

  /** A challenge as its lines come in. */
  datatype Gathering = Going(encoded: Text) | Ended(encoded: Text) | Spoilt

  function Gather(lines: seq<Text>): Gathering {
    if lines == [] then Going([]) else Take(Gather(lines[..|lines| - 1]), lines[|lines| - 1])
  }

  /** One more line: `+` or a short one ends the challenge. */
  function Take(g: Gathering, chunk: Text): Gathering {
    if !g.Going? then Spoilt
    else if chunk == SaslChunks.PLUS then Ended(g.encoded)
    else if |g.encoded + chunk| > SaslChunks.MAX_PAYLOAD_LEN then Spoilt
    else if |chunk| < SaslChunks.MAX_CHUNK_LEN then Ended(g.encoded + chunk)
    else Going(g.encoded + chunk)
  }

  lemma {:induction false} TakeMore(lines: seq<Text>, chunk: Text)
    ensures Gather(lines + [chunk]) == Take(Gather(lines), chunk)
  {
    assert (lines + [chunk])[..|lines|] == lines;
  }

  /** Lines still going on are what a reassembly has so far. */
  lemma {:induction false} GoingOn(lines: seq<Text>, more: seq<Text>)
    requires Gather(lines).Going?
    ensures SaslChunks.Reassembled(lines + more, []) == SaslChunks.Reassembled(more, Gather(lines).encoded)
  {
    if lines == [] {
      assert lines + more == more;
    } else {
      var front, chunk := lines[..|lines| - 1], lines[|lines| - 1];
      assert lines + more == front + ([chunk] + more) && ([chunk] + more)[1..] == more;
      GoingOn(front, [chunk] + more);
    }
  }

  lemma {:induction false} EndedIsDone(lines: seq<Text>)
    requires Gather(lines).Ended?
    ensures SaslChunks.Reassembled(lines, []) == SaslChunks.Done(Gather(lines).encoded, [])
  {
    var front, chunk := lines[..|lines| - 1], lines[|lines| - 1];
    assert lines == front + [chunk] && [chunk][1..] == [];
    GoingOn(front, [chunk]);
  }

  /** The lines heard after those `before` are one challenge, and decode to `bytes`. */
  ghost predicate IsChallenge(before: seq<Text>, after: seq<Text>, bytes: seq<byte>) {
    && before <= after
    && var read := SaslChunks.Reassembled(after[|before|..], []);
       read.Done? && read.rest == [] && Base64.Decode(read.payload) == Some(bytes)
  }

  lemma {:induction false} Joined(a: seq<Text>, b: seq<Text>, c: seq<Text>)
    ensures (a + b) + c == a + (b + c) && (a + b)[|a|..] == b && a + [] == a
  {
  }

  // ---- reading the server's lines

  predicate IsBlank(c: char) {
    c == ' ' || '\t' <= c <= '\r'
  }

  function BlankAt(s: string): (at: nat)
    ensures at <= |s|
  {
    if s == [] || IsBlank(s[0]) then 0 else 1 + BlankAt(s[1..])
  }

  /** The words of a list. */
  function Words(s: string): seq<string>
    decreases |s|
  {
    if s == [] then []
    else if IsBlank(s[0]) then Words(s[1..])
    else [s[..BlankAt(s)]] + Words(s[BlankAt(s)..])
  }

  /** Words with `gaps` around and between them. */
  function Spaced(gaps: seq<string>, words: seq<string>): string
    requires |gaps| == |words| + 1
  {
    if words == [] then gaps[0] else gaps[0] + words[0] + Spaced(gaps[1..], words[1..])
  }

  predicate AllBlank(s: string) {
    forall i | 0 <= i < |s| :: IsBlank(s[i])
  }

  predicate NoneBlank(s: string) {
    s != [] && forall i | 0 <= i < |s| :: !IsBlank(s[i])
  }

  /** `words` are the stretches of `s` between the blanks, none of them empty. */
  predicate AreWordsOf(gaps: seq<string>, words: seq<string>, s: string) {
    && |gaps| == |words| + 1 && s == Spaced(gaps, words)
    && (forall i | 0 <= i < |gaps| :: AllBlank(gaps[i]))
    && (forall i | 0 < i < |gaps| - 1 :: gaps[i] != [])
    && (forall i | 0 <= i < |words| :: NoneBlank(words[i]))
  }

  lemma {:induction false} WordsApart(s: string) returns (gaps: seq<string>)
    ensures AreWordsOf(gaps, Words(s), s)
    decreases |s|
  {
    if s == [] {
      gaps := [[]];
    } else if IsBlank(s[0]) {
      var more := WordsApart(s[1..]);
      gaps := BlankBefore(s[0], more, Words(s), s[1..]);
      assert s == [s[0]] + s[1..];
    } else {
      WordIsFirst(s);
      var word, rest := s[..BlankAt(s)], s[BlankAt(s)..];
      var more := WordsApart(rest);
      gaps := WordBefore(word, more, Words(rest), rest);
      assert s == word + rest;
    }
  }

  lemma {:induction false} BlankBefore(c: char, more: seq<string>, words: seq<string>, s: string) returns (gaps: seq<string>)
    requires AreWordsOf(more, words, s) && IsBlank(c)
    ensures AreWordsOf(gaps, words, [c] + s)
  {
    gaps := [[c] + more[0]] + more[1..];
    assert gaps[1..] == more[1..];
    if words != [] {
      assert [c] + more[0] + words[0] + Spaced(more[1..], words[1..]) == [c] + (more[0] + words[0] + Spaced(more[1..], words[1..]));
    }
  }

  lemma {:induction false} WordBefore(word: string, more: seq<string>, words: seq<string>, s: string) returns (gaps: seq<string>)
    requires AreWordsOf(more, words, s) && NoneBlank(word) && (s != [] ==> IsBlank(s[0]))
    ensures AreWordsOf(gaps, [word] + words, word + s)
  {
    gaps := [[]] + more;
    assert gaps[1..] == more && ([word] + words)[1..] == words;
    assert [] + word + Spaced(more, words) == word + s;
    GapFirst(more, words, s);
    forall i | 0 < i < |gaps| - 1 ensures gaps[i] != [] {
      assert gaps[i] == more[i - 1];
    }
  }

  /** What starts with a blank, or is nothing, has a gap before its first word. */
  lemma {:induction false} GapFirst(gaps: seq<string>, words: seq<string>, s: string)
    requires AreWordsOf(gaps, words, s) && (s != [] ==> IsBlank(s[0]))
    ensures words != [] ==> gaps[0] != []
  {
    if words != [] {
      assert NoneBlank(words[0]);
      var rest := words[0] + Spaced(gaps[1..], words[1..]);
      assert s == gaps[0] + rest && rest[0] == words[0][0];
    }
  }

  lemma {:induction false} WordIsFirst(s: string)
    requires s != [] && !IsBlank(s[0])
    ensures NoneBlank(s[..BlankAt(s)]) && (BlankAt(s) < |s| ==> IsBlank(s[BlankAt(s)]))
  {
    if |s| > 1 && !IsBlank(s[1]) {
      WordIsFirst(s[1..]);
      assert s[..BlankAt(s)] == [s[0]] + s[1..][..BlankAt(s[1..])];
    } else {
      assert s[..BlankAt(s)] == [s[0]];
    }
  }

  function Last(m: Message): string {
    if m.params == [] then "" else m.params[|m.params| - 1]
  }

  function First(m: Message): string {
    if m.params == [] then "" else m.params[0]
  }

  /** The bytes of a text. */
  function Codes(s: string): Text {
    if s == [] then [] else PointBytes(s[0] as int) + Codes(s[1..])
  }

  /** A line as the verdict on a capability request. */
  function AsVerdict(m: Message): Ledger.Line {
    if m.command == "410" then Ledger.InvalidCap
    else if m.command != "CAP" || |m.params| < 2 then Ledger.Unrelated
    else if m.params[1] == "ACK" then Ledger.Ack(Words(Last(m)))
    else if m.params[1] == "NAK" then Ledger.Nak(Words(Last(m)))
    else Ledger.Unrelated
  }

  datatype Error = Closed | Broken | TimedOut | Malformed | InvalidInput | TooManyCapabilities
                 | Refused(reply: string) | Unavailable | NotOffered | Rejected(reply: string) | Protocol

  /** The replies that end a registration. */
  predicate IsRefusal(m: Message) {
    m.command in {"ERROR", "432", "468", "433", "436", "437", "464", "465"}
  }

  predicate IsNickInUse(m: Message) {
    m.command in {"433", "436", "437"}
  }

  datatype Alternative = NoAlternative | Proposed(nick: string) | Taken(nick: string)

  /** A refusal ends a registration, unless it is of a nickname an alternative may
      still take the place of. */
  predicate Ends(m: Message, alternative: Alternative) {
    IsRefusal(m) && !(IsNickInUse(m) && alternative.Proposed?)
  }

  /** What a line other than a refusal says of the exchange: the mechanism is not
      offered, a verdict, or nothing. */
  function SaslVerdict(table: Table, mechanism: Mechanism, m: Message): Option<Error> {
    if m.command == "904" && !IsOffered(table, [NameOf(mechanism)]) then Some(NotOffered)
    else if m.command in {"902", "904", "905", "906", "907"} then Some(Rejected(m.command))
    else None
  }

  /** The table after a line: a 908 names the mechanisms. */
  function AfterLine(table: Table, m: Message): Table {
    if m.command == "908" && |m.params| > 1 then table["sasl" := Some(m.params[1])] else table
  }

  /** A table and a watch after them: the list of mechanisms is the one named last. */
  predicate Tracks(before: Ear, table: Table, after: Ear, now: Table) {
    || (after.named == before.named && now == table)
    || (after.named.Some? && now == table["sasl" := after.named])
  }

  lemma {:induction false} TracksOn(a: Ear, s: Table, b: Ear, t: Table, c: Ear, u: Table)
    requires Tracks(a, s, b, t) && Tracks(b, t, c, u)
    ensures Tracks(a, s, c, u)
  {
    if u != t {
      assert t == s || u == s["sasl" := c.named];
    }
  }

  lemma {:induction false} TracksKeys(before: Ear, table: Table, after: Ear, now: Table)
    requires Tracks(before, table, after, now) && "sasl" in table
    ensures now.Keys == table.Keys
  {
  }

  /** The table with the list of mechanisms that was named, if one was. */
  function Corrected(table: Table, named: Option<string>): Table {
    if named.Some? then table["sasl" := named] else table
  }

  /** The table by the second of the first offers, or by the only one. */
  function TableBy(table: Table, learned: seq<Option<string>>): Table {
    if |learned| > 1 then Corrected(table, learned[1]) else table
  }

  /** A mechanism was offered, and the table is corrected by what was named since. */
  predicate IsTried(before: Watch, ear: Ear, table: Table, m: Mechanism, after: Watch, now: Ear, corrected: Table) {
    && after.offers == before.offers + [m]
    && now.known.learned == ear.known.learned + [ear.named]
    && corrected == Corrected(table, now.named)
  }

  function Offering(ear: Ear): Ear {
    ear.(known := ear.known.(learned := ear.known.learned + [ear.named]), named := None)
  }

  lemma {:induction false} Tried(ear: Ear, table: Table, now: Ear, corrected: Table)
    requires Tracks(Offering(ear), table, now, corrected) && Listens(Offering(ear), now)
    ensures Tries(ear, now) && now.known.learned == ear.known.learned + [ear.named] && corrected == Corrected(table, now.named)
  {
  }

  /** The offers before the client's name: the best; and a second one only where the
      first was `PLAIN` for want of a list, and the list named meanwhile is without
      it: then the best of that list, which is not `PLAIN`. */
  ghost predicate IsFirstChoice(table: Table, offers: seq<Mechanism>, learned: seq<Option<string>>) {
    && |learned| == |offers| <= 2
    && (offers != [] ==> IsBest(table, offers[0]))
    && (|offers| == 2 ==>
         && Named(table).None? && offers[1] != Plain
         && !IsOffered(Corrected(table, learned[1]), [NameOf(Plain)]) && IsBest(Corrected(table, learned[1]), offers[1]))
  }

  lemma {:induction false} FirstChosen(table: Table, m: Mechanism, learned: seq<Option<string>>)
    requires |learned| == 1 && IsBest(table, m)
    ensures IsFirstChoice(table, [m], learned) && TableBy(table, learned) == table
  {
  }

  lemma {:induction false} SecondChosen(table: Table, first: Mechanism, m: Mechanism, learned: seq<Option<string>>, named: Option<string>)
    requires |learned| == 1 && Named(table).None? && IsBest(table, first) && m != first
    requires !IsOffered(Corrected(table, named), [NameOf(first)]) && IsBest(Corrected(table, named), m)
    ensures first == Plain && IsFirstChoice(table, [first] + [m], learned + [named])
    ensures TableBy(table, learned + [named]) == Corrected(table, named)
  {
    assert (learned + [named])[1] == named && ([first] + [m])[1] == m;
  }

  /** All the offers: the first, and after the client's name those that are weaker
      than the last of these and were offered by then, in their order. */
  ghost predicate IsChoice(table: Table, offers: seq<Mechanism>, known: Known) {
    match known.identified
    case None => IsFirstChoice(table, offers, known.learned)
    case Some((learned, named)) =>
      && 0 < |learned| <= |offers| && IsFirstChoice(table, offers[..|learned|], learned)
      && offers[|learned|..] <= Weaker(Corrected(TableBy(table, learned), named), offers[|learned| - 1])
  }

  lemma {:induction false} Chosen(table: Table, first: seq<Mechanism>, offers: seq<Mechanism>, known: Known)
    requires known.identified.Some? && first != [] && IsFirstChoice(table, first, known.identified.value.0)
    requires Falls(first, offers, Weaker(Corrected(TableBy(table, known.identified.value.0), known.identified.value.1), first[|first| - 1]))
    ensures IsChoice(table, offers, known)
  {
    assert offers[..|first|] == first;
  }

  /** The offers went on with some of `all`, in their order. */
  predicate Falls(before: seq<Mechanism>, after: seq<Mechanism>, all: seq<Mechanism>) {
    before <= after && after[|before|..] <= all
  }

  /** The same, with `weaker` left of them. */
  predicate Fell(before: seq<Mechanism>, now: seq<Mechanism>, all: seq<Mechanism>, weaker: seq<Mechanism>) {
    |weaker| <= |all| && weaker == all[|all| - |weaker|..] && now == before + all[..|all| - |weaker|]
  }

  lemma {:induction false} FellFalls(before: seq<Mechanism>, now: seq<Mechanism>, all: seq<Mechanism>, weaker: seq<Mechanism>)
    ensures Fell(before, before, all, all)
    ensures Fell(before, now, all, weaker) ==> Falls(before, now, all)
  {
    assert before + all[..0] == before;
    if Fell(before, now, all, weaker) {
      assert now[|before|..] == all[..|all| - |weaker|];
    }
  }

  lemma {:induction false} FellFurther(before: seq<Mechanism>, now: seq<Mechanism>, all: seq<Mechanism>, weaker: seq<Mechanism>)
    requires Fell(before, now, all, weaker) && weaker != []
    ensures Fell(before, now + [weaker[0]], all, weaker[1..]) && Falls(before, now + [weaker[0]], all)
  {
    var n := |all| - |weaker|;
    assert all[..n + 1] == all[..n] + [all[n]];
    assert now + [weaker[0]] == before + all[..n + 1];
    FellFalls(before, now + [weaker[0]], all, weaker[1..]);
  }

  /** A 451 that is about the server password, not about capabilities. */
  predicate AnswersPass(m: Message) {
    m.command == "451" && exists i | 0 <= i < |m.params| :: Upper(m.params[i]) == "PASS"
  }

  /** The server does not negotiate capabilities. */
  predicate AnswersNoCap(m: Message) {
    m.command == "451" || (m.command == "421" && |m.params| > 1 && Upper(m.params[1]) == "CAP")
  }

  predicate IsListing(m: Message) {
    m.command == "CAP" && |m.params| > 1 && m.params[1] == "LS"
  }

  /** A listing goes on when its third parameter is `*`. */
  predicate IsLastListing(m: Message) {
    |m.params| <= 2 || m.params[2] != "*"
  }

  /** The table with every list recorded, in order. */
  function RecordedAll(table: Table, lists: seq<seq<string>>): Table {
    if lists == [] then table
    else Ledger.Recorded(RecordedAll(table, lists[..|lists| - 1]), lists[|lists| - 1])
  }

  function TableAfter(table: Table, m: Message): Table {
    if IsListing(m) then Ledger.Recorded(table, Words(Last(m))) else table
  }

  /** `now` is `table` with the lists heard after those of `before` recorded. */
  predicate IsTableOf(table: Table, before: seq<seq<string>>, after: seq<seq<string>>, now: Table) {
    before <= after && now == RecordedAll(table, after[|before|..])
  }

  lemma {:induction false} NoListing(table: Table, before: seq<seq<string>>)
    ensures IsTableOf(table, before, before, table)
  {
    assert before[|before|..] == [];
  }

  lemma {:induction false} OneMoreListing(table: Table, before: seq<seq<string>>, after: seq<seq<string>>, now: Table, m: Message)
    requires IsTableOf(table, before, after, now)
    ensures IsTableOf(table, before, after + ListOf(m), TableAfter(now, m))
  {
    var lists := after[|before|..];
    if IsListing(m) {
      var more := lists + [Words(Last(m))];
      assert (after + ListOf(m))[|before|..] == more && more[..|lists|] == lists;
    } else {
      assert after + ListOf(m) == after;
    }
  }

  function OfferedAmong(table: Table, names: seq<string>): (offered: seq<string>)
    ensures forall c :: c in offered <==> c in names && c in table
  {
    if names == [] then [] else (if names[0] in table then [names[0]] else []) + OfferedAmong(table, names[1..])
  }

  /** The server granted or refused `c`. */
  predicate IsAnswered(l: Ledger.Ledger, c: string) {
    c in l.enabled || c in l.refused
  }

  /** Every name offered, but those still to be asked for and the one that waits for
      its prerequisite, was answered. */
  predicate AllAnswered(l: Ledger.Ledger, names: seq<string>, todo: seq<string>) {
    forall c | c in names && c in l.advertised && c !in todo && c != "labeled-response" :: IsAnswered(l, c)
  }

  lemma {:induction false} StillAnswered(before: Ledger.Ledger, after: Ledger.Ledger, todo: seq<string>)
    requires KeepsAnswers(before, after) && todo != [] && (todo[0] != "labeled-response" ==> IsAnswered(after, todo[0]))
    requires AllAnswered(before, Ledger.METADATA, []) && AllAnswered(before, before.optional, todo)
    ensures AllAnswered(after, Ledger.METADATA, []) && AllAnswered(after, after.optional, todo[1..])
  {
    assert forall c | c in before.refused :: c in after.refused;
    assert todo == [todo[0]] + todo[1..];
  }

  /** No answer was lost. */
  predicate KeepsAnswers(before: Ledger.Ledger, after: Ledger.Ledger) {
    && before.enabled <= after.enabled && before.refused <= after.refused
    && after.advertised == before.advertised && after.optional == before.optional
  }

  datatype Negotiation = Open | Unsupported | Unanswered

  datatype Discovery = Found(negotiation: Negotiation) | More(listing: bool)

  /** What discovery ended with: the last listing, or a reply that there is no
      negotiation. */
  ghost predicate IsDiscovered(trace: seq<Entry>, n: Negotiation) {
    match n
    case Open => exists m: Message :: LastHeard(trace, m) && IsListing(m) && IsLastListing(m)
    case Unsupported => exists m: Message :: LastHeard(trace, m) && AnswersNoCap(m)
    case Unanswered => true
  }

  lemma {:induction false} ThenMore(table: Table, a: seq<seq<string>>, b: seq<seq<string>>, middle: Table, c: seq<seq<string>>, now: Table)
    requires IsTableOf(table, a, b, middle) && IsTableOf(middle, b, c, now)
    ensures IsTableOf(table, a, c, now)
  {
    RecordedOn(table, b[|a|..], c[|b|..]);
    assert c[|a|..] == b[|a|..] + c[|b|..];
  }

  lemma {:induction false} RecordedOn(table: Table, lists: seq<seq<string>>, more: seq<seq<string>>)
    ensures RecordedAll(table, lists + more) == RecordedAll(RecordedAll(table, lists), more)
  {
    if more == [] {
      assert lists + more == lists;
    } else {
      RecordedOn(table, lists, more[..|more| - 1]);
      assert (lists + more)[..|lists + more| - 1] == lists + more[..|more| - 1];
    }
  }

  // ---- the SCRAM computations, as they are given

  datatype Final = Proof(bytes: seq<byte>) | MechanismRefused | Unusable

  datatype Signature = Verified | Denied | Wrong

  datatype ScramClient = ScramClient(
    first: Hash -> Option<seq<byte>>,
    final: (Hash, seq<byte>) -> Final,
    verify: (Hash, seq<byte>, seq<byte>) -> Signature)

  /** The account and its password, to log in with. */
  datatype Login = Login(account: seq<byte>, password: seq<byte>, client: ScramClient)

  function PlainMessage(login: Login): seq<byte> {
    [0] + login.account + [0] + login.password
  }

  /** Where the first zero is. */
  function ZeroAt(bytes: seq<byte>): (at: nat)
    ensures at <= |bytes|
  {
    if bytes == [] || bytes[0] == 0 then 0 else 1 + ZeroAt(bytes[1..])
  }

  lemma {:induction false} ZeroAfter(a: seq<byte>, x: seq<byte>)
    requires 0 !in a
    ensures ZeroAt(a + [0] + x) == |a|
  {
    if a != [] {
      assert (a + [0] + x)[1..] == a[1..] + [0] + x;
      ZeroAfter(a[1..], x);
    }
  }

  /** Read from zero to zero, as section 2 of RFC 4616 has it, the plain message names
      nobody to act as, then the account, then the password. */
  lemma {:induction false} PlainIsRead(login: Login)
    requires 0 !in login.account
    ensures var m := PlainMessage(login); var n := 1 + |login.account|;
            ZeroAt(m) == 0 && 1 + ZeroAt(m[1..]) == n && m[1..n] == login.account && m[n + 1..] == login.password
  {
    ZeroAfter(login.account, login.password);
    assert PlainMessage(login)[1..] == login.account + [0] + login.password;
  }

  /** The one challenge heard between the opening and the credential, and what the
      client answers it with. */
  ghost predicate Answers(client: ScramClient, hash: Hash, said: Said, serverFirst: seq<byte>, proof: seq<byte>) {
    IsChallenge(said.atOpening, said.atCredential, serverFirst) && client.final(hash, serverFirst) == Proof(proof)
  }

  /** The lines heard from `before` to `after` are one challenge, and it is the
      server's proof that it knows the account. */
  ghost predicate ServerProved(client: ScramClient, hash: Hash, serverFirst: seq<byte>, before: seq<Text>, after: seq<Text>) {
    exists serverFinal: seq<byte> :: IsChallenge(before, after, serverFinal) && client.verify(hash, serverFirst, serverFinal).Verified?
  }

  /** The payload that proves the password under mechanism `m`, after what was
      said. */
  ghost predicate Proves(login: Login, m: Mechanism, said: Said, payload: Text) {
    match m
    case Plain => payload == Base64.Encode(PlainMessage(login))
    case Scram(hash) =>
      exists serverFirst: seq<byte>, proof: seq<byte> :: Answers(login.client, hash, said, serverFirst, proof) && payload == Base64.Encode(proof)
  }

  /** Whatever was sent of a credential is the beginning of the login's own, under
      the mechanism offered last. */
  ghost predicate OwnCredential(login: Login, w: Watch) {
    w.credential != [] ==>
      && w.offers != []
      && exists payload: Text :: Proves(login, w.offers[|w.offers| - 1], w.said, payload) && w.credential <= SaslChunks.Lines(payload)
  }

  /** A SCRAM exchange both sides proved themselves in: the client's first message,
      the challenge heard next, the client's answer to it as the credential, and
      then, before the confirmation, one challenge that is the server's proof. */
  ghost predicate MutualBy(client: ScramClient, hash: Hash, w: Watch, serverFirst: seq<byte>, proof: seq<byte>) {
    && client.first(hash).Some? && w.said.opening == SaslChunks.Lines(Base64.Encode(client.first(hash).value))
    && Answers(client, hash, w.said, serverFirst, proof) && w.credential == SaslChunks.Lines(Base64.Encode(proof))
    && w.said.atConfirm.Some? && ServerProved(client, hash, serverFirst, w.said.atCredential, w.said.atConfirm.value)
  }

  /** The login was proved under mechanism `m`, and for SCRAM the server proved
      itself too. */
  ghost predicate Proven(login: Login, m: Mechanism, w: Watch) {
    match m
    case Plain => w.credential == SaslChunks.Lines(Base64.Encode(PlainMessage(login)))
    case Scram(hash) => exists serverFirst: seq<byte>, proof: seq<byte> :: MutualBy(login.client, hash, w, serverFirst, proof)
  }

  /** A registration that succeeded: the login was proved under the mechanism
      offered last, the server confirmed it, negotiation ended, and the client was
      welcomed. */
  ghost predicate Registered(login: Login, nick: string, trace: seq<Entry>, name: string) {
    var w := Watched(trace);
    && w.ended && w.confirmed && w.offers != [] && Proven(login, w.offers[|w.offers| - 1], w)
    && Welcomed(trace, nick, name)
  }

  /** Waiting changes nothing of what was proved. */
  lemma {:induction false} StillProven(login: Login, m: Mechanism, before: Watch, after: Watch)
    requires after.offers == before.offers && after.credential == before.credential && after.said == before.said
    ensures Proven(login, m, before) ==> Proven(login, m, after)
    ensures OwnCredential(login, before) ==> OwnCredential(login, after)
  {
    if Proven(login, m, before) && m.Scram? {
      var serverFirst: seq<byte>, proof: seq<byte> :| MutualBy(login.client, m.hash, before, serverFirst, proof);
      assert MutualBy(login.client, m.hash, after, serverFirst, proof);
    }
  }

  /** The opening was answered with a challenge that the client has a proof for. */
  ghost predicate CanProve(login: Login, hash: Hash, w: Watch, serverFirst: seq<byte>, proof: seq<byte>) {
    && w.credential == [] && w.offers != [] && w.offers[|w.offers| - 1] == Scram(hash)
    && login.client.first(hash).Some? && w.said.opening == SaslChunks.Lines(Base64.Encode(login.client.first(hash).value))
    && w.said.atConfirm.None? && !w.said.whole && IsChallenge(w.said.atOpening, w.challenges, serverFirst)
    && login.client.final(hash, serverFirst) == Proof(proof)
  }

  /** The whole credential was sent, and is the client's answer to the challenge. */
  ghost predicate HasProved(login: Login, hash: Hash, w: Watch, serverFirst: seq<byte>, proof: seq<byte>) {
    && w.offers != [] && w.offers[|w.offers| - 1] == Scram(hash)
    && login.client.first(hash).Some? && w.said.opening == SaslChunks.Lines(Base64.Encode(login.client.first(hash).value))
    && w.credential == SaslChunks.Lines(Base64.Encode(proof)) != [] && Answers(login.client, hash, w.said, serverFirst, proof)
    && w.said.atConfirm.None? && !w.said.whole
  }

  lemma {:induction false} ProofIsOwn(login: Login, hash: Hash, w: Watch, lines: seq<Text>, serverFirst: seq<byte>, proof: seq<byte>)
    requires CanProve(login, hash, w, serverFirst, proof) && lines <= SaslChunks.Lines(Base64.Encode(proof))
    ensures OwnCredential(login, Partly(w, Scram(hash), lines))
    ensures lines == SaslChunks.Lines(Base64.Encode(proof)) ==> HasProved(login, hash, Partly(w, Scram(hash), lines), serverFirst, proof)
  {
    SomeLine(Base64.Encode(proof));
    if lines != [] {
      var after := Partly(w, Scram(hash), lines);
      assert Answers(login.client, hash, after.said, serverFirst, proof);
      assert Proves(login, Scram(hash), after.said, Base64.Encode(proof));
    }
  }

  lemma {:induction false} ProofEnds(login: Login, hash: Hash, before: Watch, after: Watch, serverFirst: seq<byte>, proof: seq<byte>)
    requires HasProved(login, hash, before, serverFirst, proof)
    requires after.offers == before.offers && after.credential == before.credential
    requires after.said == before.said.(atConfirm := after.said.atConfirm, whole := after.said.whole)
    ensures OwnCredential(login, after)
    ensures after.said.atConfirm.Some? && ServerProved(login.client, hash, serverFirst, after.said.atCredential, after.said.atConfirm.value)
            ==> Proven(login, Scram(hash), after)
  {
    assert Answers(login.client, hash, after.said, serverFirst, proof);
    assert Proves(login, Scram(hash), after.said, Base64.Encode(proof));
    if after.said.atConfirm.Some? && ServerProved(login.client, hash, serverFirst, after.said.atCredential, after.said.atConfirm.value) {
      assert MutualBy(login.client, hash, after, serverFirst, proof);
    }
  }

  /** The opening's lines, and the one challenge heard since. */
  ghost predicate Opened(w: Watch, before: Said, first: seq<byte>, challenge: seq<byte>) {
    && w.said == before.(opening := SaslChunks.Lines(Base64.Encode(first)), atOpening := w.said.atOpening)
    && IsChallenge(w.said.atOpening, w.challenges, challenge)
  }

  /** Nothing of the mechanism's messages was said yet. */
  predicate Unsaid(w: Watch, m: Mechanism) {
    && w.credential == [] && w.offers != [] && w.offers[|w.offers| - 1] == m
    && w.said.opening == [] && w.said.atConfirm.None? && !w.said.whole
  }

  /** The watch after one more line of a credential. */
  function Sending(w: Watch, mechanism: Mechanism, text: Text): Watch {
    w.(open := true, credential := w.credential + [text], said := w.said.(atCredential := w.challenges, whole := mechanism.Plain?))
  }

  /** The watch after so many lines of one. */
  function Partly(w: Watch, mechanism: Mechanism, lines: seq<Text>): Watch {
    if lines == [] then w
    else w.(open := true, credential := lines, said := w.said.(atCredential := w.challenges, whole := mechanism.Plain?))
  }

  lemma {:induction false} PartlyMore(w: Watch, mechanism: Mechanism, lines: seq<Text>, text: Text)
    requires w.credential == []
    ensures Sending(Partly(w, mechanism, lines), mechanism, text) == Partly(w, mechanism, lines + [text])
    ensures Partly(w, mechanism, lines).credential == lines && Partly(w, mechanism, lines).offers == w.offers
    ensures lines != [] ==> Partly(w, mechanism, lines).open
  {
    assert w.credential + [text] == [text] && [] + [text] == [text];
  }

  // ---- the transport

  datatype Transport = Tls | Loopback | Cleartext | CleartextConsented

  /** How a connection is carried: plaintext is safe only to this machine. */
  function TransportOf(tls: bool, loopback: bool): Transport {
    if tls then Tls else if loopback then Loopback else Cleartext
  }

  /** The user's consent, which changes only what would be refused. */
  function Consented(t: Transport): Transport {
    if t.Cleartext? then CleartextConsented else t
  }

  datatype Identity = Identity(nick: string, username: string, serverPassword: bool)

  predicate IsWord(s: string) {
    s != "" && s[0] != ':' && forall i | 0 <= i < |s| :: !IsBlank(s[i])
  }

  // ---- the registration

  class Registration {
    var inputs: seq<Input>
    /** How many more lines can be written before the connection breaks. */
    var writes: nat
    var ledger: Ledger.Ledger
    var alternative: Alternative
    var passwordSent: bool
    const transport: Transport
    var trace: seq<Entry>

    constructor (tls: bool, loopback: bool, consent: bool, inputs: seq<Input>, writes: nat, alternative: Alternative, optional: seq<string>)
      ensures trace == [] && ledger == Ledger.Beginning(optional) && !passwordSent
      ensures this.inputs == inputs && this.writes == writes && this.alternative == alternative
      ensures transport.Cleartext? <==> !tls && !loopback && !consent
    {
      this.inputs, this.writes, this.alternative := inputs, writes, alternative;
      ledger, passwordSent, trace := Ledger.Beginning(optional), false, [];
      var carried := TransportOf(tls, loopback);
      transport := if consent then Consented(carried) else carried;
    }

    ghost function Now(): Watch
      reads this`trace
    {
      Watched(trace)
    }

    ghost function Aware(): Ear
      reads this`trace
    {
      HeardIn(trace)
    }

    /** Nothing heard so far ends a registration. */
    ghost predicate Fine()
      reads this`trace
    {
      Unrefused(trace)
    }

    /** Nicknames sent, and the one that still may be. */
    ghost function Nicks(): nat
      reads this`trace, this`alternative
    {
      Watched(trace).nicks + if alternative.Proposed? then 1 else 0
    }

    method Send(line: Line) returns (r: Result<(), Error>)
      modifies this`trace, this`writes
      ensures trace == if r.Ok? then old(trace) + [Sent(line)] else old(trace)
      ensures Now() == if r.Ok? then Step(old(Now()), Sent(line)) else old(Now())
      ensures Aware() == if r.Ok? then Hear(old(Aware()), Sent(line)) else old(Aware())
      ensures Fine() == old(Fine())
      ensures r.Err? ==> r.error == Broken
    {
      if writes == 0 {
        return Err(Broken);
      }
      writes := writes - 1;
      OneMore(trace, Sent(line));
      OneMoreHeard(trace, Sent(line));
      OneMoreUnrefused(trace, Sent(line));
      trace := trace + [Sent(line)];
      return Ok(());
    }

    /** The next message, waited for as long as it takes. */
    method Receive() returns (r: Result<Message, Error>)
      modifies this`inputs, this`trace
      ensures |inputs| <= |old(inputs)| && (r.Ok? ==> |inputs| < |old(inputs)|)
      ensures r.Err? ==> r.error == Closed
      ensures Fine() == (old(Fine()) && (r.Ok? ==> !IsFinal(r.value)))
      ensures trace == if r.Ok? then old(trace) + [Heard(r.value)] else old(trace)
      ensures Now() == if r.Ok? then Step(old(Now()), Heard(r.value)) else old(Now())
      ensures Aware() == if r.Ok? then Hear(old(Aware()), Heard(r.value)) else old(Aware())
    {
      while inputs != []
        invariant trace == old(trace) && |inputs| <= |old(inputs)|
      {
        var input := inputs[0];
        inputs := inputs[1..];
        match input {
          case Arrives(m) =>
            OneMore(trace, Heard(m));
            OneMoreHeard(trace, Heard(m));
            OneMoreUnrefused(trace, Heard(m));
            trace := trace + [Heard(m)];
            return Ok(m);
          case Silence =>
          case Fails => return Err(Closed);
        }
      }
      return Err(Closed);
    }

    /** The next message, if one comes within the bound on the wait. */
    method ReceiveInTime() returns (r: Result<Option<Message>, Error>)
      modifies this`inputs, this`trace
      ensures |inputs| <= |old(inputs)| && (r.Ok? ==> |inputs| < |old(inputs)|)
      ensures Fine() == (old(Fine()) && (r.Ok? && r.value.Some? ==> !IsFinal(r.value.value)))
      ensures trace == if r.Ok? && r.value.Some? then old(trace) + [Heard(r.value.value)] else old(trace)
      ensures Now() == if r.Ok? && r.value.Some? then Step(old(Now()), Heard(r.value.value)) else old(Now())
      ensures Aware() == if r.Ok? && r.value.Some? then Hear(old(Aware()), Heard(r.value.value)) else old(Aware())
    {
      if inputs == [] {
        return Err(Closed);
      }
      var input := inputs[0];
      inputs := inputs[1..];
      match input {
        case Arrives(m) =>
          OneMore(trace, Heard(m));
          OneMoreHeard(trace, Heard(m));
          OneMoreUnrefused(trace, Heard(m));
          trace := trace + [Heard(m)];
          return Ok(Some(m));
        case Silence => return Ok(None);
        case Fails => return Err(Closed);
      }
    }

    method AnswerPing(m: Message) returns (r: Result<bool, Error>)
      modifies this`trace, this`writes
      ensures Waits(old(Now()), Now()) && Now().nicks == old(Now()).nicks && Now().challenges == old(Now()).challenges
      ensures Aware() == old(Aware())
      ensures Fine() == old(Fine())
      ensures r.Err? ==> r.error == Broken
      ensures r.Ok? ==> r.value == (m.command == "PING") && trace == old(trace) + if r.value then [Sent(Pong(First(m)))] else []
    {
      if m.command == "PING" {
        var _ :- Send(Pong(First(m)));
        return Ok(true);
      }
      return Ok(false);
    }

    /** The first refusal of the nickname as in use is answered with the
        alternative, once; any other refusal ends the registration. */
    method RefusedWhileRegistering(m: Message) returns (r: Result<Option<Error>, Error>)
      modifies this`trace, this`writes, this`alternative
      ensures Waits(old(Now()), Now()) && Nicks() == old(Nicks()) && Now().challenges == old(Now()).challenges
      ensures Aware() == old(Aware())
      ensures Fine() == old(Fine())
      ensures r.Err? ==> r.error == Broken
      ensures r.Ok? ==> r.value == if Ends(m, old(alternative)) then Some(Refused(m.command)) else None
      ensures r.Err? ==> IsNickInUse(m)
      ensures r == Ok(None) ==> !IsFinal(m)
      ensures trace == old(trace) || (IsNickInUse(m) && old(alternative).Proposed? && trace == old(trace) + [Sent(Nick(old(alternative).nick))])
    {
      if !IsRefusal(m) {
        return Ok(None);
      }
      if IsNickInUse(m) && alternative.Proposed? {
        var nick := alternative.nick;
        var _ :- Send(Nick(nick));
        alternative := Taken(nick);
        return Ok(None);
      }
      return Ok(Some(Refused(m.command)));
    }

    /** The next message of a wait, a refusal among them being the end of it. */
    method ReceiveUnrefused() returns (r: Result<Message, Error>)
      modifies this`inputs, this`trace, this`writes, this`alternative
      ensures |inputs| <= |old(inputs)| && (r.Ok? ==> |inputs| < |old(inputs)|)
      ensures Waits(old(Now()), Now()) && Nicks() == old(Nicks())
      ensures Listens(old(Aware()), Aware())
      ensures r.Ok? && old(Fine()) ==> Fine()
      ensures r.Ok? ==> LastHeard(trace, r.value) && Aware().listed == old(Aware()).listed + ListOf(r.value)
      ensures r.Ok? && r.value.command == "903" && old(Now()).said.whole ==> Now().confirmed
    {
      var m :- Receive();
      var refused :- RefusedWhileRegistering(m);
      if refused.Some? {
        return Err(refused.value);
      }
      return Ok(m);
    }

    /** The next line of capability discovery; `None` when the first does not come
        in time. */
    method ReceiveListing(begun: bool) returns (r: Result<Option<Message>, Error>)
      modifies this`inputs, this`trace, this`writes, this`alternative
      ensures |inputs| <= |old(inputs)| && (r.Ok? ==> |inputs| < |old(inputs)|)
      ensures Waits(old(Now()), Now()) && Nicks() == old(Nicks())
      ensures Listens(old(Aware()), Aware())
      ensures r.Ok? && old(Fine()) ==> Fine()
      ensures r.Ok? && r.value.Some? ==> LastHeard(trace, r.value.value) && Aware().listed == old(Aware()).listed + ListOf(r.value.value)
      ensures r == Ok(None) ==> Aware().listed == old(Aware()).listed
    {
      if begun {
        var m :- ReceiveUnrefused();
        return Ok(Some(m));
      }
      var first :- ReceiveInTime();
      if first.None? {
        return Ok(None);
      }
      var refused :- RefusedWhileRegistering(first.value);
      return if refused.Some? then Err(refused.value) else Ok(first);
    }

    /** Fold a listing in; whether it was the last. */
    method TakeListing(m: Message) returns (r: Result<bool, Error>)
      requires |ledger.advertised| <= Ledger.MAX_ADVERTISED_CAPABILITIES
      modifies this`ledger
      ensures |ledger.advertised| <= Ledger.MAX_ADVERTISED_CAPABILITIES
      ensures ledger.advertised == Ledger.Recorded(old(ledger.advertised), Words(Last(m)))
      ensures r == if Ledger.Overflows(old(ledger.advertised), Words(Last(m))) then Err(TooManyCapabilities) else Ok(IsLastListing(m))
    {
      var list, table := Words(Last(m)), ledger.advertised;
      ledger := ledger.(advertised := Ledger.Recorded(table, list));
      return if Ledger.Overflows(table, list) then Err(TooManyCapabilities) else Ok(|m.params| <= 2 || m.params[2] != "*");
    }

    /** Discover what the server offers. */
    method BeginCap() returns (r: Result<Negotiation, Error>)
      requires |ledger.advertised| <= Ledger.MAX_ADVERTISED_CAPABILITIES
      modifies this`inputs, this`trace, this`writes, this`alternative, this`ledger
      ensures Waits(old(Now()), Now()) && Nicks() == old(Nicks())
      ensures Listens(old(Aware()), Aware())
      ensures r.Ok? && old(Fine()) ==> Fine()
      ensures |ledger.advertised| <= Ledger.MAX_ADVERTISED_CAPABILITIES
      ensures r.Ok? ==> IsTableOf(old(ledger.advertised), old(Aware()).listed, Aware().listed, ledger.advertised)
      ensures r.Ok? ==> IsDiscovered(trace, r.value)
    {
      var _ :- Send(CapLs);
      var begun := false;
      NoListing(ledger.advertised, Aware().listed);
      while true
        invariant Waits(old(Now()), Now()) && Nicks() == old(Nicks())
        invariant Listens(old(Aware()), Aware())
        invariant old(Fine()) ==> Fine()
        invariant |ledger.advertised| <= Ledger.MAX_ADVERTISED_CAPABILITIES
        invariant IsTableOf(old(ledger.advertised), old(Aware()).listed, Aware().listed, ledger.advertised)
        decreases |inputs|
      {
        ghost var listed, table := Aware().listed, ledger.advertised;
        var step :- DiscoverMore(begun);
        ThenMore(old(ledger.advertised), old(Aware()).listed, listed, table, Aware().listed, ledger.advertised);
        match step {
          case Found(negotiation) => return Ok(negotiation);
          case More(listing) => begun := begun || listing;
        }
      }
    }

    /** One line of discovery. */
    method DiscoverMore(begun: bool) returns (r: Result<Discovery, Error>)
      requires |ledger.advertised| <= Ledger.MAX_ADVERTISED_CAPABILITIES
      modifies this`inputs, this`trace, this`writes, this`alternative, this`ledger
      ensures |inputs| <= |old(inputs)| && (r.Ok? ==> |inputs| < |old(inputs)|)
      ensures Waits(old(Now()), Now()) && Nicks() == old(Nicks())
      ensures Listens(old(Aware()), Aware())
      ensures r.Ok? && old(Fine()) ==> Fine()
      ensures |ledger.advertised| <= Ledger.MAX_ADVERTISED_CAPABILITIES
      ensures r.Ok? ==> IsTableOf(old(ledger.advertised), old(Aware()).listed, Aware().listed, ledger.advertised)
      ensures r.Ok? && r.value.Found? ==> IsDiscovered(trace, r.value.negotiation)
    {
      NoListing(ledger.advertised, Aware().listed);
      var read :- ReceiveListing(begun);
      if read.None? {
        return Ok(Found(Unanswered));
      }
      var m := read.value;
      OneMoreListing(ledger.advertised, old(Aware()).listed, old(Aware()).listed, ledger.advertised, m);
      if passwordSent && AnswersPass(m) {
        return Ok(More(false));
      }
      if AnswersNoCap(m) {
        return Ok(Found(Unsupported));
      }
      var last :- ListingOrPing(m);
      return Ok(if last then Found(Open) else More(IsListing(m)));
    }

    /** A listing is folded in, anything else answered if it is a ping; whether it
        was the last listing. */
    method ListingOrPing(m: Message) returns (r: Result<bool, Error>)
      requires |ledger.advertised| <= Ledger.MAX_ADVERTISED_CAPABILITIES
      modifies this`trace, this`writes, this`ledger
      ensures Waits(old(Now()), Now()) && Now().nicks == old(Now()).nicks && Now().challenges == old(Now()).challenges
      ensures Aware() == old(Aware())
      ensures Fine() == old(Fine())
      ensures |ledger.advertised| <= Ledger.MAX_ADVERTISED_CAPABILITIES
      ensures r.Ok? ==> ledger.advertised == TableAfter(old(ledger.advertised), m)
      ensures r == Ok(true) ==> IsListing(m) && IsLastListing(m) && trace == old(trace)
    {
      if IsListing(m) {
        r := TakeListing(m);
      } else {
        var _ :- AnswerPing(m);
        r := Ok(false);
      }
    }

    /** Request capabilities in one line and read the verdict on exactly those. */
    method RequestCapabilities(names: seq<string>) returns (r: Result<bool, Error>)
      modifies this`inputs, this`trace, this`writes, this`alternative, this`ledger
      ensures Waits(old(Now()), Now()) && Nicks() == old(Nicks())
      ensures Asks(old(Aware()), Aware())
      ensures r.Ok? && old(Fine()) ==> Fine()
      ensures r.Ok? && old(Aware()).known.discovered.None? ==> Aware().known.discovered == Some(old(Aware()).listed)
      ensures KeepsAnswers(old(ledger), ledger)
      ensures r == Ok(true) ==> forall i | 0 <= i < |names| :: names[i] in ledger.enabled
      ensures r == Ok(false) ==> forall i | 0 <= i < |names| :: names[i] in ledger.refused
    {
      var _ :- Send(CapReq(names));
      ghost var asked := Aware().known.discovered;
      while true
        invariant Waits(old(Now()), Now()) && Nicks() == old(Nicks())
        invariant Asks(old(Aware()), Aware()) && Aware().known.discovered == asked
        invariant old(Fine()) ==> Fine()
        invariant KeepsAnswers(old(ledger), ledger)
        decreases |inputs|
      {
        var verdict :- NextVerdict(names);
        match verdict {
          case Acknowledged => return Ok(true);
          case Refused => return Ok(false);
          case Omits => return Err(Malformed);
          case NoVerdict =>
        }
      }
    }

    /** One line as the verdict on a request, answered if it is a ping. */
    method NextVerdict(names: seq<string>) returns (r: Result<Ledger.Verdict, Error>)
      modifies this`inputs, this`trace, this`writes, this`alternative, this`ledger
      ensures |inputs| <= |old(inputs)| && (r.Ok? ==> |inputs| < |old(inputs)|)
      ensures Waits(old(Now()), Now()) && Nicks() == old(Nicks())
      ensures Listens(old(Aware()), Aware())
      ensures r.Ok? && old(Fine()) ==> Fine()
      ensures KeepsAnswers(old(ledger), ledger)
      ensures r == Ok(Ledger.Acknowledged) ==> forall i | 0 <= i < |names| :: names[i] in ledger.enabled
      ensures r == Ok(Ledger.Refused) ==> forall i | 0 <= i < |names| :: names[i] in ledger.refused
    {
      var m :- ReceiveUnrefused();
      var verdict := Ledger.VerdictOn(AsVerdict(m), names);
      ledger := Ledger.Settled(ledger, AsVerdict(m), names);
      if verdict.NoVerdict? {
        var _ :- AnswerPing(m);
      }
      return Ok(verdict);
    }

    /** Everything that makes SASL impossible is decided before any exchange. */
    method NegotiateSaslCap(acceptable: seq<string>) returns (r: Result<(), Error>)
      requires |ledger.advertised| <= Ledger.MAX_ADVERTISED_CAPABILITIES
      requires Aware().known.discovered.None?
      modifies this`inputs, this`trace, this`writes, this`alternative, this`ledger
      ensures Waits(old(Now()), Now()) && Nicks() == old(Nicks())
      ensures Asks(old(Aware()), Aware())
      ensures r.Ok? && old(Fine()) ==> Fine()
      ensures |ledger.advertised| <= Ledger.MAX_ADVERTISED_CAPABILITIES
      ensures r.Ok? ==> "sasl" in ledger.advertised && "sasl" in ledger.enabled && IsOffered(ledger.advertised, acceptable)
      ensures r.Ok? ==> Aware().known.discovered.Some?
      ensures r.Ok? ==> IsTableOf(old(ledger.advertised), old(Aware()).listed, Aware().known.discovered.value, ledger.advertised)
    {
      var negotiation :- BeginCap();
      match negotiation {
        case Open =>
        case Unsupported => return Err(Unavailable);
        case Unanswered => return Err(TimedOut);
      }
      if "sasl" !in ledger.advertised {
        return Err(Unavailable);
      }
      if !IsOffered(ledger.advertised, acceptable) {
        return Err(NotOffered);
      }
      var names := ["sasl"];
      var granted :- RequestCapabilities(names);
      assert granted ==> names[0] in ledger.enabled;
      return if granted then Ok(()) else Err(Unavailable);
    }

    /** Ask for the metadata offered, in one request, and for each other wish in a
        request of its own: all that is offered is then answered, but for the one
        wish that waits for its prerequisite. */
    method RequestMetadataCapabilities() returns (r: Result<(), Error>)
      modifies this`inputs, this`trace, this`writes, this`alternative, this`ledger
      ensures Waits(old(Now()), Now()) && Nicks() == old(Nicks())
      ensures Asks(old(Aware()), Aware())
      ensures r.Ok? && old(Fine()) ==> Fine()
      ensures KeepsAnswers(old(ledger), ledger)
      ensures r.Ok? ==> AllAnswered(ledger, Ledger.METADATA, []) && AllAnswered(ledger, ledger.optional, [])
    {
      var metadata := OfferedAmong(ledger.advertised, Ledger.METADATA);
      if metadata != [] {
        var _ :- AskAndLearn(metadata);
      }
      var optional := OfferedAmong(ledger.advertised, ledger.optional);
      while optional != []
        invariant Waits(old(Now()), Now()) && Nicks() == old(Nicks())
        invariant Asks(old(Aware()), Aware())
        invariant old(Fine()) ==> Fine()
        invariant KeepsAnswers(old(ledger), ledger)
        invariant AllAnswered(ledger, Ledger.METADATA, []) && AllAnswered(ledger, ledger.optional, optional)
      {
        ghost var before := ledger;
        if Ledger.PrerequisiteEnabled(ledger, optional[0]) {
          var _ :- AskAndLearn([optional[0]]);
        }
        StillAnswered(before, ledger, optional);
        optional := optional[1..];
      }
      return Ok(());
    }

    /** Ask for `names`; each is then granted or refused. */
    method AskAndLearn(names: seq<string>) returns (r: Result<bool, Error>)
      modifies this`inputs, this`trace, this`writes, this`alternative, this`ledger
      ensures Waits(old(Now()), Now()) && Nicks() == old(Nicks())
      ensures Asks(old(Aware()), Aware())
      ensures r.Ok? && old(Fine()) ==> Fine()
      ensures KeepsAnswers(old(ledger), ledger)
      ensures r.Ok? ==> forall c | c in names :: IsAnswered(ledger, c)
    {
      r := RequestCapabilities(names);
      if r.Ok? {
        forall c | c in names ensures IsAnswered(ledger, c) {
          var i :| 0 <= i < |names| && names[i] == c;
          assert r.value ==> names[i] in ledger.enabled;
        }
      }
    }

    /** The end of a SASL wait, if `m` is one. A 908 names the mechanisms and is
        remembered, so that the 904 after it can be told from a verdict on the
        password. */
    method SaslTerminalError(m: Message, mechanism: Mechanism) returns (r: Result<Option<Error>, Error>)
      requires "sasl" in ledger.advertised
      modifies this`trace, this`writes, this`alternative, this`ledger
      ensures Waits(old(Now()), Now()) && Nicks() == old(Nicks()) && Now().challenges == old(Now()).challenges
      ensures Aware() == old(Aware()) && (r.Err? ==> r.error == Broken)
      ensures Fine() == old(Fine())
      ensures r.Ok? ==> r.value == if Ends(m, old(alternative)) then Some(Refused(m.command)) else SaslVerdict(old(ledger.advertised), mechanism, m)
      ensures ledger.advertised == AfterLine(old(ledger.advertised), m)
      ensures r == Ok(None) ==> !IsRejection(m) && !IsFinal(m)
      ensures r == Ok(Some(NotOffered)) ==> !IsFinal(m) && !IsOffered(ledger.advertised, [NameOf(mechanism)])
    {
      var refused :- RefusedWhileRegistering(m);
      if refused.Some? {
        return Ok(refused);
      }
      if m.command == "908" {
        if |m.params| > 1 {
          ledger := ledger.(advertised := ledger.advertised["sasl" := Some(m.params[1])]);
        }
        return Ok(None);
      }
      if m.command == "904" && !IsOffered(ledger.advertised, [NameOf(mechanism)]) {
        return Ok(Some(NotOffered));
      }
      if m.command in {"902", "904", "905", "906", "907"} {
        return Ok(Some(Rejected(m.command)));
      }
      var _ :- AnswerPing(m);
      return Ok(None);
    }

    method ReceiveSasl(mechanism: Mechanism) returns (r: Result<Message, Error>)
      requires "sasl" in ledger.advertised
      modifies this`inputs, this`trace, this`writes, this`alternative, this`ledger
      ensures |inputs| <= |old(inputs)| && (r.Ok? ==> |inputs| < |old(inputs)|)
      ensures Waits(old(Now()), Now()) && Nicks() == old(Nicks())
      ensures Listens(old(Aware()), Aware())
      ensures (r.Err? ==> r.error == NotOffered) && old(Fine()) ==> Fine()
      ensures ledger.advertised.Keys == old(ledger.advertised).Keys
      ensures Tracks(old(Aware()), old(ledger.advertised), Aware(), ledger.advertised) && (r.Ok? ==> Aware().rejected == old(Aware()).rejected)
      ensures r == Err(NotOffered) ==> !IsOffered(ledger.advertised, [NameOf(mechanism)])
      ensures r.Ok? ==> Now().challenges == old(Now()).challenges + Chunk(r.value)
      ensures r.Ok? && r.value.command == "903" && old(Now()).said.whole ==> Now().confirmed
    {
      var m :- Receive();
      var end :- SaslTerminalError(m, mechanism);
      if end.Some? {
        return Err(end.value);
      }
      return Ok(m);
    }

    /** The text of the next `AUTHENTICATE` line. */
    method NextChunk(mechanism: Mechanism) returns (r: Result<Text, Error>)
      requires "sasl" in ledger.advertised
      modifies this`inputs, this`trace, this`writes, this`alternative, this`ledger
      ensures |inputs| <= |old(inputs)| && (r.Ok? ==> |inputs| < |old(inputs)|)
      ensures Waits(old(Now()), Now()) && Nicks() == old(Nicks())
      ensures Listens(old(Aware()), Aware())
      ensures (r.Err? ==> r.error == NotOffered) && old(Fine()) ==> Fine()
      ensures ledger.advertised.Keys == old(ledger.advertised).Keys
      ensures Tracks(old(Aware()), old(ledger.advertised), Aware(), ledger.advertised) && (r.Ok? ==> Aware().rejected == old(Aware()).rejected)
      ensures r == Err(NotOffered) ==> !IsOffered(ledger.advertised, [NameOf(mechanism)])
      ensures r.Ok? ==> Now().challenges == old(Now()).challenges + [r.value]
    {
      while true
        invariant |inputs| <= |old(inputs)|
        invariant Waits(old(Now()), Now()) && Nicks() == old(Nicks())
        invariant Listens(old(Aware()), Aware())
        invariant old(Fine()) ==> Fine()
        invariant ledger.advertised.Keys == old(ledger.advertised).Keys
        invariant Tracks(old(Aware()), old(ledger.advertised), Aware(), ledger.advertised) && Aware().rejected == old(Aware()).rejected
        invariant Now().challenges == old(Now()).challenges
        decreases |inputs|
      {
        ghost var ear, table := Aware(), ledger.advertised;
        var next := ReceiveSasl(mechanism);
        TracksOn(old(Aware()), old(ledger.advertised), ear, table, Aware(), ledger.advertised);
        var m :- next;
        if m.command == "AUTHENTICATE" {
          return Ok(Codes(First(m)));
        }
        assert old(Now()).challenges + [] == old(Now()).challenges;
      }
    }

    /** The lines of one challenge, put together. */
    method GatherChallenge(mechanism: Mechanism) returns (r: Result<Text, Error>, ghost lines: seq<Text>)
      requires "sasl" in ledger.advertised
      modifies this`inputs, this`trace, this`writes, this`alternative, this`ledger
      ensures Waits(old(Now()), Now()) && Nicks() == old(Nicks())
      ensures Listens(old(Aware()), Aware())
      ensures (r.Err? ==> r.error == NotOffered) && old(Fine()) ==> Fine()
      ensures ledger.advertised.Keys == old(ledger.advertised).Keys
      ensures Tracks(old(Aware()), old(ledger.advertised), Aware(), ledger.advertised) && (r.Ok? ==> Aware().rejected == old(Aware()).rejected)
      ensures r == Err(NotOffered) ==> !IsOffered(ledger.advertised, [NameOf(mechanism)])
      ensures r.Ok? ==> Now().challenges == old(Now()).challenges + lines && Gather(lines) == Ended(r.value)
    {
      var encoded: Text := [];
      lines := [];
      Joined(Now().challenges, [], []);
      while true
        invariant Waits(old(Now()), Now()) && Nicks() == old(Nicks())
        invariant Listens(old(Aware()), Aware())
        invariant old(Fine()) ==> Fine()
        invariant ledger.advertised.Keys == old(ledger.advertised).Keys
        invariant Tracks(old(Aware()), old(ledger.advertised), Aware(), ledger.advertised) && Aware().rejected == old(Aware()).rejected
        invariant Now().challenges == old(Now()).challenges + lines && Gather(lines) == Going(encoded)
        decreases |inputs|
      {
        ghost var ear, table := Aware(), ledger.advertised;
        var next := NextChunk(mechanism);
        TracksOn(old(Aware()), old(ledger.advertised), ear, table, Aware(), ledger.advertised);
        if next.Err? {
          return Err(next.error), lines;
        }
        var chunk := next.value;
        Joined(old(Now()).challenges, lines, [chunk]);
        TakeMore(lines, chunk);
        lines := lines + [chunk];
        if chunk == SaslChunks.PLUS {
          return Ok(encoded), lines;
        }
        encoded := encoded + chunk;
        if |encoded| > SaslChunks.MAX_PAYLOAD_LEN {
          return Err(Malformed), lines;
        }
        if |chunk| < SaslChunks.MAX_CHUNK_LEN {
          return Ok(encoded), lines;
        }
      }
    }

    /** One challenge, reassembled from the lines heard meanwhile and decoded. */
    method ReadChallenge(mechanism: Mechanism) returns (r: Result<seq<byte>, Error>)
      requires "sasl" in ledger.advertised
      modifies this`inputs, this`trace, this`writes, this`alternative, this`ledger
      ensures Waits(old(Now()), Now()) && Nicks() == old(Nicks())
      ensures Listens(old(Aware()), Aware())
      ensures (r.Err? ==> r.error == NotOffered) && old(Fine()) ==> Fine()
      ensures ledger.advertised.Keys == old(ledger.advertised).Keys
      ensures Tracks(old(Aware()), old(ledger.advertised), Aware(), ledger.advertised) && (r.Ok? ==> Aware().rejected == old(Aware()).rejected)
      ensures r == Err(NotOffered) ==> !IsOffered(ledger.advertised, [NameOf(mechanism)])
      ensures r.Ok? ==> IsChallenge(old(Now()).challenges, Now().challenges, r.value)
    {
      var encoded, lines := GatherChallenge(mechanism);
      if encoded.Err? {
        return Err(encoded.error);
      }
      Joined(old(Now()).challenges, lines, []);
      EndedIsDone(lines);
      var decoded := Base64.Decode(encoded.value);
      return if decoded.Some? then Ok(decoded.value) else Err(Malformed);
    }

    /** Offer a mechanism and wait for the empty challenge. */
    method OfferMechanism(mechanism: Mechanism) returns (r: Result<(), Error>)
      requires "sasl" in ledger.advertised && Now().credential == [] && !Now().said.whole
      modifies this`inputs, this`trace, this`writes, this`alternative, this`ledger
      ensures !Now().said.whole && Now().confirmed == old(Now()).confirmed
      ensures || IsTried(old(Now()), old(Aware()), old(ledger.advertised), mechanism, Now(), Aware(), ledger.advertised)
              || (r.Err? && Now().offers == old(Now()).offers && Aware() == old(Aware()) && ledger.advertised == old(ledger.advertised))
      ensures Waits(old(Now()).(offers := Now().offers, said := Now().said), Now()) && Nicks() == old(Nicks())
      ensures Tries(old(Aware()), Aware())
      ensures (r.Err? ==> r.error == NotOffered) && old(Fine()) ==> Fine()
      ensures ledger.advertised.Keys == old(ledger.advertised).Keys
      ensures r == Err(NotOffered) ==> Now().offers == old(Now()).offers + [mechanism] && !IsOffered(ledger.advertised, [NameOf(mechanism)])
      ensures r.Ok? ==> Unsaid(Now(), mechanism) && IsChallenge(old(Now()).challenges, Now().challenges, [])
    {
      var sent := SendOffer(mechanism);
      if sent.Err? {
        return Err(Broken);
      }
      var challenge := ReadChallenge(mechanism);
      Tried(old(Aware()), old(ledger.advertised), Aware(), ledger.advertised);
      return if challenge.Err? then Err(challenge.error) else if challenge.value == [] then Ok(()) else Err(Malformed);
    }

    method SendOffer(mechanism: Mechanism) returns (r: Result<(), Error>)
      requires Now().credential == []
      modifies this`trace, this`writes
      ensures Waits(old(Now()).(offers := Now().offers, said := Now().said), Now())
      ensures Now().nicks == old(Now()).nicks && Now().challenges == old(Now()).challenges && Now().confirmed == old(Now()).confirmed
      ensures r.Ok? ==> Now().offers == old(Now()).offers + [mechanism] && Unsaid(Now(), mechanism)
      ensures r.Ok? ==> Aware() == Offering(old(Aware()))
      ensures Fine() == old(Fine())
      ensures r.Err? ==> Now() == old(Now()) && Aware() == old(Aware()) && r.error == Broken
    {
      r := Send(Offer(mechanism));
    }

    /** Give up the mechanism in progress and wait until the server has too. */
    method AbortSasl() returns (r: Result<(), Error>)
      modifies this`inputs, this`trace, this`writes, this`alternative
      ensures Waits(old(Now()), Now()) && Nicks() == old(Nicks())
      ensures Listens(old(Aware()), Aware())
      ensures r.Ok? && old(Fine()) ==> Fine()
      ensures r.Ok? ==> trace != [] && trace[|trace| - 1].Heard? && trace[|trace| - 1].message.command == "906"
    {
      var _ :- Send(Abort);
      r := AwaitAborted();
    }

    method AwaitAborted() returns (r: Result<(), Error>)
      modifies this`inputs, this`trace, this`writes, this`alternative
      ensures Waits(old(Now()), Now()) && Nicks() == old(Nicks())
      ensures Listens(old(Aware()), Aware())
      ensures r.Ok? && old(Fine()) ==> Fine()
      ensures r.Ok? ==> trace != [] && trace[|trace| - 1].Heard? && trace[|trace| - 1].message.command == "906"
    {
      while true
        invariant Waits(old(Now()), Now()) && Nicks() == old(Nicks())
        invariant Listens(old(Aware()), Aware())
        invariant old(Fine()) ==> Fine()
        decreases |inputs|
      {
        var m :- UnrefusedInTime();
        if m.command == "906" {
          return Ok(());
        }
        if m.command != "904" {
          var _ :- AnswerPing(m);
        }
      }
    }

    /** The next message, if one comes within the bound on the wait, a refusal being
        the end of it. */
    method UnrefusedInTime() returns (r: Result<Message, Error>)
      modifies this`inputs, this`trace, this`writes, this`alternative
      ensures |inputs| <= |old(inputs)| && (r.Ok? ==> |inputs| < |old(inputs)|)
      ensures Waits(old(Now()), Now()) && Nicks() == old(Nicks())
      ensures Listens(old(Aware()), Aware())
      ensures r.Ok? && old(Fine()) ==> Fine()
      ensures r.Ok? && !IsNickInUse(r.value) ==> trace != [] && trace[|trace| - 1] == Heard(r.value)
    {
      var m :- ReceiveInTime();
      if m.None? {
        return Err(TimedOut);
      }
      var refused :- RefusedWhileRegistering(m.value);
      return if refused.Some? then Err(refused.value) else Ok(m.value);
    }

    method SendOpeningLine(text: Text) returns (r: Result<(), Error>)
      modifies this`trace, this`writes
      ensures Waits(old(Now()).(said := Now().said), Now()) && Now().nicks == old(Now()).nicks && Now().challenges == old(Now()).challenges
      ensures Aware() == old(Aware())
      ensures Fine() == old(Fine())
      ensures r.Ok? ==> Now().said == old(Now()).said.(opening := old(Now()).said.opening + [text], atOpening := Now().challenges)
      ensures r.Err? ==> Now().said == old(Now()).said
      ensures Now().confirmed == old(Now()).confirmed && Now().said.whole == old(Now()).said.whole
    {
      r := Send(Opening(text));
    }

    /** Send a payload that proves nothing yet. */
    method SendOpening(payload: Text) returns (r: Result<(), Error>)
      requires Now().said.opening == []
      modifies this`trace, this`writes
      ensures Waits(old(Now()).(said := Now().said), Now()) && Now().nicks == old(Now()).nicks && Now().challenges == old(Now()).challenges
      ensures Aware() == old(Aware())
      ensures Fine() == old(Fine())
      ensures r.Ok? ==> Now().said == old(Now()).said.(opening := SaslChunks.Lines(payload), atOpening := Now().challenges)
      ensures Now().confirmed == old(Now()).confirmed && Now().said.whole == old(Now()).said.whole
    {
      var lines, fits := SaslChunks.SendPayload(payload);
      if !fits {
        return Err(InvalidInput);
      }
      SomeLine(payload);
      var i := 0;
      while i < |lines|
        invariant 0 <= i <= |lines| && Now().challenges == old(Now()).challenges
        invariant Now().said == if i == 0 then old(Now()).said else old(Now()).said.(opening := lines[..i], atOpening := Now().challenges)
        invariant Waits(old(Now()).(said := Now().said), Now()) && Now().nicks == old(Now()).nicks
        invariant Aware() == old(Aware())
        invariant Fine() == old(Fine())
        invariant Now().confirmed == old(Now()).confirmed && Now().said.whole == old(Now()).said.whole
      {
        var _ :- SendOpeningLine(lines[i]);
        OneLonger(lines, i);
        i := i + 1;
      }
      OneLonger(lines, i);
      return Ok(());
    }

    /** One line of a credential, the first or right after another. */
    method SendCredentialLine(mechanism: Mechanism, text: Text) returns (r: Result<(), Error>)
      requires Now().offers != [] && Now().offers[|Now().offers| - 1] == mechanism && (Now().credential == [] || Now().open)
      modifies this`trace, this`writes
      ensures Now() == if r.Ok? then Sending(old(Now()), mechanism, text) else old(Now())
      ensures Proving(old(Aware()), Aware()) && Aware().rejected == old(Aware()).rejected
      ensures Fine() == old(Fine())
    {
      r := Send(Credential(mechanism, text));
    }

    /** Send the one payload that proves the password is known: all its lines, or the
        first of them when the connection breaks. */
    method SendCredential(mechanism: Mechanism, payload: Text) returns (r: Result<(), Error>)
      requires Now().credential == [] && Now().offers != [] && Now().offers[|Now().offers| - 1] == mechanism
      modifies this`trace, this`writes
      ensures Now() == Partly(old(Now()), mechanism, Now().credential)
      ensures Proving(old(Aware()), Aware()) && Aware().rejected == old(Aware()).rejected
      ensures Fine() == old(Fine())
      ensures Now().credential <= SaslChunks.Lines(payload)
      ensures r.Ok? ==> Now().credential == SaslChunks.Lines(payload)
    {
      var lines, fits := SaslChunks.SendPayload(payload);
      if !fits {
        return Err(InvalidInput);
      }
      var i := 0;
      while i < |lines|
        invariant 0 <= i <= |lines|
        invariant Now() == Partly(old(Now()), mechanism, lines[..i])
        invariant Proving(old(Aware()), Aware()) && Aware().rejected == old(Aware()).rejected
        invariant Fine() == old(Fine())
      {
        PartlyMore(old(Now()), mechanism, lines[..i], lines[i]);
        var _ :- SendCredentialLine(mechanism, lines[i]);
        OneLonger(lines, i);
        i := i + 1;
      }
      OneLonger(lines, i);
      return Ok(());
    }

    /** The client's first SCRAM message and what the server's answer allows. */
    method ScramOpening(client: ScramClient, hash: Hash) returns (r: Result<(seq<byte>, Final), Error>)
      requires "sasl" in ledger.advertised && Now().said.opening == [] && !Now().said.whole
      modifies this`inputs, this`trace, this`writes, this`alternative, this`ledger
      ensures Waits(old(Now()).(said := Now().said), Now()) && Nicks() == old(Nicks())
      ensures Listens(old(Aware()), Aware()) && (r.Ok? && !old(Aware()).rejected ==> !Aware().rejected)
      ensures r.Ok? && old(Fine()) ==> Fine()
      ensures ledger.advertised.Keys == old(ledger.advertised).Keys
      ensures r.Ok? ==> client.first(hash).Some? && Opened(Now(), old(Now()).said, client.first(hash).value, r.value.0)
      ensures r.Ok? ==> r.value.1 == client.final(hash, r.value.0)
      ensures Now().confirmed == old(Now()).confirmed
    {
      var first := client.first(hash);
      if first.None? {
        return Err(Protocol);
      }
      var _ :- SendOpening(Base64.Encode(first.value));
      var serverFirst :- ReadChallenge(Scram(hash));
      return Ok((serverFirst, client.final(hash, serverFirst)));
    }

    /** The proof, and the server's own. */
    method ScramProof(login: Login, hash: Hash, serverFirst: seq<byte>, proof: seq<byte>) returns (r: Result<(), Error>)
      requires "sasl" in ledger.advertised && CanProve(login, hash, Now(), serverFirst, proof)
      modifies this`inputs, this`trace, this`writes, this`alternative, this`ledger
      ensures Waits(old(Now()).(credential := Now().credential, said := Now().said), Now()) && Nicks() == old(Nicks())
      ensures Proving(old(Aware()), Aware()) && (r.Ok? && !old(Aware()).rejected ==> !Aware().rejected)
      ensures r.Ok? && old(Fine()) ==> Fine()
      ensures ledger.advertised.Keys == old(ledger.advertised).Keys
      ensures OwnCredential(login, Now())
      ensures r.Ok? ==> Now().said.whole && Now().credential != [] && Proven(login, Scram(hash), Now())
      ensures Now().confirmed == old(Now()).confirmed
    {
      var _ :- SendProof(login, hash, serverFirst, proof);
      ghost var w := Now();
      r := ScramVerify(login.client, hash, serverFirst);
      ProofEnds(login, hash, w, Now(), serverFirst, proof);
    }

    /** The proof alone. */
    method SendProof(login: Login, hash: Hash, serverFirst: seq<byte>, proof: seq<byte>) returns (r: Result<(), Error>)
      requires CanProve(login, hash, Now(), serverFirst, proof)
      modifies this`trace, this`writes
      ensures Waits(old(Now()).(credential := Now().credential, said := Now().said), Now()) && Now().nicks == old(Now()).nicks
      ensures Proving(old(Aware()), Aware()) && Aware().rejected == old(Aware()).rejected
      ensures Fine() == old(Fine())
      ensures Now().confirmed == old(Now()).confirmed
      ensures r.Err? ==> OwnCredential(login, Now())
      ensures r.Ok? ==> HasProved(login, hash, Now(), serverFirst, proof) && Now().said.atCredential == Now().challenges
    {
      r := SendCredential(Scram(hash), Base64.Encode(proof));
      ProofIsOwn(login, hash, old(Now()), Now().credential, serverFirst, proof);
    }

    /** The server's own proof, without which nothing is confirmed. */
    method ScramVerify(client: ScramClient, hash: Hash, serverFirst: seq<byte>) returns (r: Result<(), Error>)
      requires "sasl" in ledger.advertised && Now().credential != [] && Now().said.atConfirm.None? && !Now().said.whole
      modifies this`inputs, this`trace, this`writes, this`alternative, this`ledger
      ensures Waits(old(Now()).(said := Now().said), Now()) && Nicks() == old(Nicks()) && Now().confirmed == old(Now()).confirmed
      ensures Listens(old(Aware()), Aware()) && (r.Ok? && !old(Aware()).rejected ==> !Aware().rejected)
      ensures r.Ok? && old(Fine()) ==> Fine()
      ensures ledger.advertised.Keys == old(ledger.advertised).Keys
      ensures Now().said == old(Now()).said.(atConfirm := Now().said.atConfirm, whole := r.Ok?)
      ensures Now().said.atConfirm.Some? <==> r.Ok?
      ensures r.Ok? ==> ServerProved(client, hash, serverFirst, old(Now()).challenges, Now().said.atConfirm.value)
    {
      var serverFinal :- ReadChallenge(Scram(hash));
      r := ConfirmIf(client.verify(hash, serverFirst, serverFinal));
    }

    method ConfirmIf(signature: Signature) returns (r: Result<(), Error>)
      requires Now().credential != [] && Now().said.atConfirm.None? && !Now().said.whole
      modifies this`trace, this`writes
      ensures Waits(old(Now()).(said := Now().said), Now()) && Now().nicks == old(Now()).nicks && Now().confirmed == old(Now()).confirmed
      ensures Aware() == old(Aware())
      ensures Fine() == old(Fine())
      ensures Now().said == if r.Ok? then old(Now()).said.(atConfirm := Some(old(Now()).challenges), whole := true) else old(Now()).said
      ensures r.Ok? ==> signature.Verified?
    {
      match signature {
        case Denied => return Err(Rejected("904"));
        case Wrong => return Err(Protocol);
        case Verified =>
          var _ :- Send(Confirm);
          return Ok(());
      }
    }

    /** The SCRAM messages after the empty challenge; `true` when the server refused
        the mechanism before any proof was sent. */
    method ScramExchange(login: Login, hash: Hash) returns (r: Result<bool, Error>)
      requires "sasl" in ledger.advertised && Unsaid(Now(), Scram(hash))
      modifies this`inputs, this`trace, this`writes, this`alternative, this`ledger
      ensures Waits(old(Now()).(credential := Now().credential, said := Now().said), Now()) && Nicks() == old(Nicks())
      ensures Proving(old(Aware()), Aware()) && (r.Ok? && !old(Aware()).rejected ==> !Aware().rejected)
      ensures r.Ok? && old(Fine()) ==> Fine()
      ensures ledger.advertised.Keys == old(ledger.advertised).Keys
      ensures OwnCredential(login, Now())
      ensures r == Ok(true) ==> Now().credential == [] && !Now().said.whole && Aware().known.proving == old(Aware()).known.proving
      ensures r == Ok(false) ==> Now().said.whole && Now().credential != [] && Proven(login, Scram(hash), Now())
      ensures Now().confirmed == old(Now()).confirmed
    {
      var exchange :- ScramOpening(login.client, hash);
      match exchange.1 {
        case MechanismRefused => return Ok(true);
        case Unusable => return Err(Protocol);
        case Proof(bytes) =>
          var _ :- ScramProof(login, hash, exchange.0, bytes);
          return Ok(false);
      }
    }

    /** After the credential: the verdict, the end of negotiation on success, and
        the welcome. */
    method FinishSaslThenWelcome(nick: string, mechanism: Mechanism) returns (r: Result<string, Error>)
      requires "sasl" in ledger.advertised && Now().said.whole && Now().credential != [] && !Now().confirmed && !Now().ended && !Aware().rejected
      modifies this`inputs, this`trace, this`writes, this`alternative, this`ledger
      ensures Waits(old(Now()).(ended := Now().ended), Now()) && Nicks() == old(Nicks())
      ensures Listens(old(Aware()), Aware())
      ensures r.Ok? && old(Fine()) ==> Fine()
      ensures ledger.advertised.Keys == old(ledger.advertised).Keys
      ensures r.Ok? ==> Now().ended && Now().confirmed && Welcomed(trace, nick, r.value)
    {
      while true
        invariant Waits(old(Now()), Now()) && Nicks() == old(Nicks())
        invariant Listens(old(Aware()), Aware()) && !Aware().rejected
        invariant old(Fine()) ==> Fine()
        invariant ledger.advertised.Keys == old(ledger.advertised).Keys
        decreases |inputs|
      {
        var m :- ReceiveSasl(mechanism);
        if m.command == "903" {
          var _ :- Send(CapEnd);
          break;
        }
      }
      r := AwaitWelcome(nick);
    }

    method AwaitWelcome(nick: string) returns (r: Result<string, Error>)
      modifies this`inputs, this`trace, this`writes, this`alternative
      ensures Waits(old(Now()), Now()) && Nicks() == old(Nicks())
      ensures Listens(old(Aware()), Aware())
      ensures r.Ok? && old(Fine()) ==> Fine()
      ensures r.Ok? ==> Welcomed(trace, nick, r.value)
    {
      while true
        invariant Waits(old(Now()), Now()) && Nicks() == old(Nicks())
        invariant Listens(old(Aware()), Aware())
        invariant old(Fine()) ==> Fine()
        decreases |inputs|
      {
        var name :- WelcomeOrPing(nick);
        if name.Some? {
          return Ok(name.value);
        }
      }
    }

    /** One line of the wait for the welcome: the name it gives, if it is that. */
    method WelcomeOrPing(nick: string) returns (r: Result<Option<string>, Error>)
      modifies this`inputs, this`trace, this`writes, this`alternative
      ensures |inputs| <= |old(inputs)| && (r.Ok? ==> |inputs| < |old(inputs)|)
      ensures Waits(old(Now()), Now()) && Nicks() == old(Nicks())
      ensures Listens(old(Aware()), Aware())
      ensures r.Ok? && old(Fine()) ==> Fine()
      ensures r.Ok? && r.value.Some? ==> Welcomed(trace, nick, r.value.value)
    {
      var m :- ReceiveUnrefused();
      if m.command == "001" {
        return Ok(Some(if m.params == [] then nick else m.params[0]));
      }
      var _ :- AnswerPing(m);
      return Ok(None);
    }

    method SendName(nick: string) returns (r: Result<(), Error>)
      modifies this`trace, this`writes
      ensures Waits(old(Now()), Now()) && Now().nicks <= old(Now()).nicks + 1 && Aware() == old(Aware())
      ensures Fine() == old(Fine())
      ensures trace == if r.Ok? then old(trace) + [Sent(Nick(nick))] else old(trace)
      ensures r.Err? ==> r.error == Broken
    {
      r := Send(Nick(nick));
    }

    method SendIdentity(identity: Identity) returns (r: Result<(), Error>)
      requires Aware().known.identified.None?
      modifies this`trace, this`writes
      ensures Waits(old(Now()), Now()) && Now().nicks <= old(Now()).nicks + 1
      ensures Aware() == old(Aware()).(known := Aware().known)
      ensures r.Ok? && old(Fine()) ==> Fine()
      ensures Aware().known == old(Aware()).known || Aware().known == old(Aware()).known.(identified := Some((old(Aware()).known.learned, old(Aware()).named)))
      ensures r.Ok? ==> Aware().known.identified.Some?
      ensures Fine() == old(Fine())
      ensures r.Ok? ==> trace == old(trace) + [Sent(Nick(identity.nick))] + [Sent(User)]
      ensures r == Err(InvalidInput) ==> trace == old(trace)
    {
      if !IsWord(identity.nick) || !IsWord(identity.username) {
        return Err(InvalidInput);
      }
      var _ :- SendName(identity.nick);
      var _ :- Send(User);
      return Ok(());
    }

    /** Offer the strongest mechanism. A server that had named none was offered
        `PLAIN`; when its refusal names a stronger one, that one is offered, once. */
    method FirstOffer() returns (r: Result<Mechanism, Error>)
      requires "sasl" in ledger.advertised && Now().credential == [] && !Now().said.whole
      requires Now().offers == [] && Aware().known.learned == []
      modifies this`inputs, this`trace, this`writes, this`alternative, this`ledger
      ensures Waits(old(Now()).(offers := Now().offers, said := Now().said), Now()) && Nicks() == old(Nicks())
      ensures Tries(old(Aware()), Aware())
      ensures r.Ok? && old(Fine()) ==> Fine()
      ensures ledger.advertised.Keys == old(ledger.advertised).Keys
      ensures InOrder(Now().offers)
      ensures r.Ok? ==> Unsaid(Now(), r.value)
      ensures Now().confirmed == old(Now()).confirmed
      ensures IsFirstChoice(old(ledger.advertised), Now().offers, Aware().known.learned)
      ensures r.Ok? ==> ledger.advertised == Corrected(TableBy(old(ledger.advertised), Aware().known.learned), Aware().named)
      ensures r == Err(NotOffered) && |Now().offers| == 1 ==> Named(old(ledger.advertised)).Some? || IsBest(ledger.advertised, Plain)
      ensures r.Ok? ==> Now().offers == [r.value] || Now().offers == [Plain, r.value]
    {
      var named := Named(ledger.advertised).Some?;
      var mechanism := Strongest(ledger.advertised);
      FirstInOrder(mechanism);
      StrongestIff(ledger.advertised, mechanism);
      var offered := OfferMechanism(mechanism);
      if offered.Ok? {
        return Ok(mechanism);
      }
      if named || offered.error != NotOffered {
        return Err(offered.error);
      }
      r := OfferLearned(mechanism, old(ledger.advertised));
    }

    /** After `PLAIN` for want of a list: the strongest of the list named since, unless
        that is `PLAIN` again. */
    method OfferLearned(first: Mechanism, ghost table: Table) returns (r: Result<Mechanism, Error>)
      requires "sasl" in ledger.advertised && Now().credential == [] && !Now().said.whole
      requires Now().offers == [first] && |Aware().known.learned| == 1 && Named(table).None? && IsBest(table, first)
      requires ledger.advertised == Corrected(table, Aware().named) && !IsOffered(ledger.advertised, [NameOf(first)])
      modifies this`inputs, this`trace, this`writes, this`alternative, this`ledger
      ensures Waits(old(Now()).(offers := Now().offers, said := Now().said), Now()) && Nicks() == old(Nicks())
      ensures Tries(old(Aware()), Aware())
      ensures r.Ok? && old(Fine()) ==> Fine()
      ensures ledger.advertised.Keys == old(ledger.advertised).Keys
      ensures InOrder(Now().offers)
      ensures r.Ok? ==> Unsaid(Now(), r.value)
      ensures Now().confirmed == old(Now()).confirmed
      ensures IsFirstChoice(table, Now().offers, Aware().known.learned)
      ensures r.Ok? ==> ledger.advertised == Corrected(TableBy(table, Aware().known.learned), Aware().named)
      ensures r == Err(NotOffered) && |Now().offers| == 1 ==> IsBest(ledger.advertised, Plain)
      ensures r.Ok? ==> Now().offers == [Plain, r.value]
    {
      var learned := Strongest(ledger.advertised);
      FirstInOrder(first);
      StrongestIff(ledger.advertised, learned);
      FirstChosen(table, first, Aware().known.learned);
      if learned == first {
        return Err(NotOffered);
      }
      SecondChosen(table, first, learned, Aware().known.learned, Aware().named);
      FirstInOrder(learned);
      var _ :- OfferMechanism(learned);
      return Ok(learned);
    }

    /** The exchange, falling back to a weaker mechanism only while no credential
        has been sent. */
    method Authenticate(nick: string, login: Login, strongest: Mechanism) returns (r: Result<string, Error>)
      requires "sasl" in ledger.advertised
      requires Unsaid(Now(), strongest) && !Now().confirmed && !Now().ended && Now().lawful
      requires !Aware().rejected && !Aware().known.proving
      modifies this`inputs, this`trace, this`writes, this`alternative, this`ledger
      ensures Nicks() == old(Nicks()) && ledger.advertised.Keys == old(ledger.advertised).Keys
      ensures SameBefore(old(Aware()).known, Aware().known)
      ensures r.Ok? && old(Fine()) ==> Fine()
      ensures Falls(old(Now()).offers, Now().offers, Weaker(old(ledger.advertised), strongest))
      ensures Now().lawful && OwnCredential(login, Now())
      ensures r.Ok? ==> Registered(login, nick, trace, r.value)
    {
      var mechanism, weaker := strongest, Weaker(ledger.advertised, strongest);
      ghost var all := weaker;
      FellFalls(Now().offers, Now().offers, all, weaker);
      while true
        invariant Fell(old(Now()).offers, Now().offers, all, weaker)
        invariant Unsaid(Now(), mechanism) && !Now().confirmed && !Now().ended && Now().lawful
        invariant SameBefore(old(Aware()).known, Aware().known) && !Aware().rejected && !Aware().known.proving
        invariant old(Fine()) ==> Fine()
        invariant Nicks() == old(Nicks()) && ledger.advertised.Keys == old(ledger.advertised).Keys
        decreases |weaker|
      {
        FellFalls(old(Now()).offers, Now().offers, all, weaker);
        var name :- Attempt(nick, login, mechanism);
        if name.Some? {
          return Ok(name.value);
        }
        if weaker == [] {
          return Err(Protocol);
        }
        FellFurther(old(Now()).offers, Now().offers, all, weaker);
        var _ :- FallBack(weaker[0]);
        mechanism, weaker := weaker[0], weaker[1..];
      }
    }

    /** One mechanism to its end; `None` when it was refused before its credential. */
    method Attempt(nick: string, login: Login, mechanism: Mechanism) returns (r: Result<Option<string>, Error>)
      requires "sasl" in ledger.advertised
      requires Unsaid(Now(), mechanism) && !Now().confirmed && !Now().ended && Now().lawful
      requires !Aware().rejected && !Aware().known.proving
      modifies this`inputs, this`trace, this`writes, this`alternative, this`ledger
      ensures Nicks() == old(Nicks()) && ledger.advertised.Keys == old(ledger.advertised).Keys
      ensures SameBefore(old(Aware()).known, Aware().known) && Now().offers == old(Now()).offers
      ensures r.Ok? && old(Fine()) ==> Fine()
      ensures Now().lawful && OwnCredential(login, Now())
      ensures r.Ok? && r.value.Some? ==> Registered(login, nick, trace, r.value.value)
      ensures r == Ok(None) ==> Now().credential == [] && !Now().said.whole && !Now().confirmed && !Now().ended && !Aware().rejected
      ensures r == Ok(None) ==> !Aware().known.proving
    {
      var refused :- Exchange(login, mechanism);
      if refused {
        return Ok(None);
      }
      ghost var w := Now();
      var name := FinishSaslThenWelcome(nick, mechanism);
      StillProven(login, mechanism, w, Now());
      return if name.Ok? then Ok(Some(name.value)) else Err(name.error);
    }

    /** Give up one mechanism and offer the next weaker one. */
    method FallBack(next: Mechanism) returns (r: Result<(), Error>)
      requires "sasl" in ledger.advertised && Now().credential == [] && !Now().said.whole
      modifies this`inputs, this`trace, this`writes, this`alternative, this`ledger
      ensures Waits(old(Now()).(offers := Now().offers, said := Now().said), Now()) && Nicks() == old(Nicks())
      ensures Tries(old(Aware()), Aware())
      ensures r.Ok? && old(Fine()) ==> Fine()
      ensures ledger.advertised.Keys == old(ledger.advertised).Keys
      ensures Now().offers == old(Now()).offers + [next] || (r.Err? && Now().offers == old(Now()).offers)
      ensures r.Ok? ==> Unsaid(Now(), next)
      ensures Now().confirmed == old(Now()).confirmed
    {
      var _ :- AbortSasl();
      var _ :- OfferMechanism(next);
      return Ok(());
    }

    /** One mechanism's messages; `true` when it was refused before its credential. */
    method Exchange(login: Login, mechanism: Mechanism) returns (r: Result<bool, Error>)
      requires "sasl" in ledger.advertised && Unsaid(Now(), mechanism)
      modifies this`inputs, this`trace, this`writes, this`alternative, this`ledger
      ensures Waits(old(Now()).(credential := Now().credential, said := Now().said), Now()) && Nicks() == old(Nicks())
      ensures Proving(old(Aware()), Aware()) && (r.Ok? && !old(Aware()).rejected ==> !Aware().rejected)
      ensures r.Ok? && old(Fine()) ==> Fine()
      ensures ledger.advertised.Keys == old(ledger.advertised).Keys
      ensures OwnCredential(login, Now())
      ensures r == Ok(true) ==> Now().credential == [] && !Now().said.whole && Aware().known.proving == old(Aware()).known.proving
      ensures r == Ok(false) ==> Now().said.whole && Now().credential != [] && Proven(login, mechanism, Now())
      ensures Now().confirmed == old(Now()).confirmed
    {
      if mechanism.Scram? {
        r := ScramExchange(login, mechanism.hash);
        return;
      }
      var payload := Base64.Encode(PlainMessage(login));
      var sent := SendCredential(Plain, payload);
      SomeLine(payload);
      assert Proves(login, mechanism, Now().said, payload);
      return if sent.Ok? then Ok(false) else Err(sent.error);
    }

    /** Everything before the first mechanism: the server password, if there is
        one, and the capabilities. */
    method Prepare(identity: Identity) returns (r: Result<(), Error>)
      requires |ledger.advertised| <= Ledger.MAX_ADVERTISED_CAPABILITIES
      requires Aware().known.discovered.None?
      modifies this
      ensures Waits(old(Now()), Now()) && Nicks() == old(Nicks())
      ensures Asks(old(Aware()), Aware())
      ensures r.Ok? && old(Fine()) ==> Fine()
      ensures |ledger.advertised| <= Ledger.MAX_ADVERTISED_CAPABILITIES
      ensures r.Ok? ==> "sasl" in ledger.advertised && IsOffered(ledger.advertised, PASSWORD_NAMES)
      ensures r.Ok? ==> Aware().known.discovered.Some?
      ensures r.Ok? ==> IsTableOf(old(ledger.advertised), old(Aware()).listed, Aware().known.discovered.value, ledger.advertised)
    {
      if identity.serverPassword {
        var _ :- Send(ServerPassword);
        passwordSent := true;
      }
      var _ :- NegotiateSaslCap(PASSWORD_NAMES);
      r := RequestMetadataCapabilities();
    }

    /** From the first offer to the welcome. */
    method LogIn(identity: Identity, login: Login) returns (r: Result<string, Error>)
      requires "sasl" in ledger.advertised && Now().offers == [] && Now().credential == [] && !Now().said.whole
      requires !Now().confirmed && !Now().ended && Now().lawful
      requires Aware().known.learned == [] && Aware().known.identified.None? && !Aware().rejected && !Aware().known.proving
      modifies this`inputs, this`trace, this`writes, this`alternative, this`ledger
      ensures Nicks() <= old(Nicks()) + 1 && ledger.advertised.Keys == old(ledger.advertised).Keys
      ensures Aware().known.discovered == old(Aware()).known.discovered && Aware().known.fair == old(Aware()).known.fair
      ensures r.Ok? && old(Fine()) ==> Fine()
      ensures IsChoice(old(ledger.advertised), Now().offers, Aware().known)
      ensures Now().lawful && InOrder(Now().offers) && OwnCredential(login, Now())
      ensures r.Ok? ==> Registered(login, identity.nick, trace, r.value)
    {
      var strongest :- FirstOffer();
      var _ :- SendIdentity(identity);
      ghost var first, table := Now().offers, ledger.advertised;
      r := Authenticate(identity.nick, login, strongest);
      Chosen(old(ledger.advertised), first, Now().offers, Aware().known);
      WeakerWeakens(table, strongest);
      FallsInOrder(first, Now().offers, Weaker(table, strongest), strongest);
    }

    /** Register with a password. Whatever the server answers: nothing is sent on
        a connection that may be overheard; every rule of the watch is kept; the
        offers weaken, and are at most four; whatever is sent of a credential is
        the login's own, under the mechanism offered last; at most one nickname is
        sent beside the one asked for; and the server's table of capabilities
        stays within its bound. */
    method RegisterSasl(identity: Identity, login: Login) returns (r: Result<string, Error>)
      requires trace == [] && |ledger.advertised| <= Ledger.MAX_ADVERTISED_CAPABILITIES
      modifies this
      ensures transport.Cleartext? ==> trace == [] && r.Err?
      ensures Now().lawful && InOrder(Now().offers) && |Now().offers| <= 4
      ensures OwnCredential(login, Now())
      ensures Aware().known.fair && (r.Ok? ==> Fine())
      ensures Now().offers != [] ==> Aware().known.discovered.Some?
      ensures Now().offers != [] ==> IsChoice(RecordedAll(old(ledger.advertised), Aware().known.discovered.value), Now().offers, Aware().known)
      ensures Now().nicks <= 2
      ensures |ledger.advertised| <= Ledger.MAX_ADVERTISED_CAPABILITIES
      ensures r.Ok? ==> Registered(login, identity.nick, trace, r.value)
    {
      if transport.Cleartext? {
        return Err(InvalidInput);
      }
      var _ :- Prepare(identity);
      ghost var keys := ledger.advertised.Keys;
      assert |keys| <= Ledger.MAX_ADVERTISED_CAPABILITIES;
      assert Aware().known.discovered.value[|SILENCE.listed|..] == Aware().known.discovered.value;
      r := LogIn(identity, login);
      AtMostFour(Now().offers);
      SameSize(keys, ledger.advertised);
    }
  }
}
