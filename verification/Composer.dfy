/**
  Splitting what is typed into pieces that each fit one IRC line as relayed, cut
  between words where that does not make a piece too short. Text is code points;
  positions in a piece are counted in UTF-16 units, sizes in UTF-8 bytes.
 */
module Composer {
  import opened Wrappers
  import Octets

  type Text = seq<int>

  const SPACE: int := 32
  const SLASH: int := 47

  function Size(c: int): (n: nat)
    ensures 1 <= n <= 4
  {
    if c < 0x80 then 1 else if c < 0x800 then 2 else if c < 0x10000 then 3 else 4
  }

  function Units(c: int): (n: nat)
    ensures 1 <= n <= 2 && n <= Size(c) <= 3 * n
  {
    if c < 0x10000 then 1 else 2
  }

  function Bytes(text: Text): nat {
    if text == [] then 0 else Bytes(text[..|text| - 1]) + Size(text[|text| - 1])
  }

  function Length(text: Text): nat {
    if text == [] then 0 else Length(text[..|text| - 1]) + Units(text[|text| - 1])
  }

  /** A unit is one byte at least and three at most. */
  lemma {:induction false} Bounds(text: Text)
    ensures |text| <= Length(text) <= Bytes(text) <= 3 * Length(text)
  {
    if text != [] {
      Bounds(text[..|text| - 1]);
    }
  }

  lemma {:induction false} OneLonger(text: Text, c: int)
    ensures Bytes(text + [c]) == Bytes(text) + Size(c) && Length(text + [c]) == Length(text) + Units(c)
  {
    assert (text + [c])[..|text|] == text;
  }

  lemma {:induction false} Parted(b: Text)
    requires b != []
    ensures b[..|b| - 1] + [b[|b| - 1]] == b
  {
  }

  lemma {:induction false} Apart(a: Text, b: Text)
    ensures Bytes(a + b) == Bytes(a) + Bytes(b) && Length(a + b) == Length(a) + Length(b)
  {
    if b == [] {
      assert a + b == a;
    } else {
      var front, last := b[..|b| - 1], b[|b| - 1];
      Apart(a, front);
      Parted(b);
      Glue(a, front, [last]);
      OneLonger(a + front, last);
    }
  }

  /** The sizes are those of the encodings: bytes of UTF-8, units of UTF-16. */
  lemma {:induction false} SizesAreEncoded(text: Text)
    requires Octets.AreScalars(text)
    ensures Bytes(text) == |Octets.TextBytes(text)| && Length(text) == |Octets.TextUnits(text)|
  {
    if text != [] {
      var c, rest := text[0], text[1..];
      SizesAreEncoded(rest);
      assert Octets.IsScalar(c);
      assert text == [c] + rest && [] + [c] == [c];
      Apart([c], rest);
      OneLonger([], c);
    }
  }

  // ---- where a piece is cut

  /** One past the last space; zero when there is none. */
  function AfterLastSpace(piece: Text): (at: nat)
    ensures at <= |piece| && (at > 0 ==> piece[at - 1] == SPACE)
    ensures forall i | at <= i < |piece| :: piece[i] != SPACE
  {
    if piece == [] then 0
    else if piece[|piece| - 1] == SPACE then |piece|
    else AfterLastSpace(piece[..|piece| - 1])
  }

  /** After the last space, when it is in the piece's second half; else at the end. */
  function Cut(piece: Text): (at: nat)
    ensures at <= |piece| && (piece != [] ==> at > 0)
  {
    var at := AfterLastSpace(piece);
    if at > 0 && 2 * Length(piece[..at - 1]) >= Length(piece) then at else |piece|
  }

  /** A space in the second half of a piece. */
  predicate LateSpace(piece: Text, i: nat) {
    i < |piece| && piece[i] == SPACE && 2 * Length(piece[..i]) >= Length(piece)
  }

  /** A piece is cut right after its last space if any space is in its second half, and
      at its end otherwise. */
  lemma {:induction false} CutIff(piece: Text)
    ensures (exists i: nat :: LateSpace(piece, i)) ==>
              piece[Cut(piece) - 1] == SPACE && forall i | Cut(piece) <= i < |piece| :: piece[i] != SPACE
    ensures !(exists i: nat :: LateSpace(piece, i)) ==> Cut(piece) == |piece|
  {
    var at := AfterLastSpace(piece);
    if i: nat :| LateSpace(piece, i) {
      assert i < at;
      assert piece[..at - 1] == piece[..i] + piece[i..at - 1];
      Apart(piece[..i], piece[i..at - 1]);
      assert LateSpace(piece, at - 1);
    } else if at > 0 {
      assert !LateSpace(piece, at - 1);
    }
  }

  /** The pieces of `text` after the part of a piece already gathered. */
  function Pieces(text: Text, piece: Text, budget: nat): seq<Text>
    decreases |text|
  {
    if text == [] then (if piece == [] then [] else [piece])
    else if Bytes(piece) + Size(text[0]) > budget && piece != [] then
      [piece[..Cut(piece)]] + Pieces(text[1..], piece[Cut(piece)..] + [text[0]], budget)
    else Pieces(text[1..], piece + [text[0]], budget)
  }

  method SplitUtf8(text: Text, budget: nat) returns (pieces: seq<Text>)
    ensures pieces == Pieces(text, [], budget)
  {
    pieces := [];
    var piece: Text, bytes := [], 0;
    var todo := text;
    assert [] + Pieces(text, [], budget) == Pieces(text, [], budget);
    while todo != []
      invariant bytes == Bytes(piece)
      invariant pieces + Pieces(todo, piece, budget) == Pieces(text, [], budget)
    {
      var size := Size(todo[0]);
      if bytes + size > budget && piece != [] {
        var cut := Cut(piece);
        Over(pieces, piece[..cut], Pieces(todo[1..], piece[cut..] + [todo[0]], budget));
        pieces := pieces + [piece[..cut]];
        piece := piece[cut..];
        bytes := Bytes(piece);
      }
      OneLonger(piece, todo[0]);
      piece := piece + [todo[0]];
      bytes := bytes + size;
      todo := todo[1..];
    }
    if piece != [] {
      pieces := pieces + [piece];
    } else {
      assert pieces + [] == pieces;
    }
  }

  lemma {:induction false} Over(pieces: seq<Text>, piece: Text, rest: seq<Text>)
    ensures pieces + ([piece] + rest) == pieces + [piece] + rest
  {
  }

  // ---- nothing is lost

  function Joined(pieces: seq<Text>): Text {
    if pieces == [] then [] else pieces[0] + Joined(pieces[1..])
  }

  /** The pieces put together are the text, and none is empty. */
  lemma {:induction false} PiecesAreTheText(text: Text, piece: Text, budget: nat)
    ensures Joined(Pieces(text, piece, budget)) == piece + text
    ensures forall p | p in Pieces(text, piece, budget) :: p != []
    decreases |text|
  {
    if text == [] {
      assert piece + text == piece;
      if piece != [] {
        assert Joined([piece]) == piece + Joined([piece][1..]);
      }
    } else if Bytes(piece) + Size(text[0]) > budget && piece != [] {
      var cut := Cut(piece);
      var rest := Pieces(text[1..], piece[cut..] + [text[0]], budget);
      PiecesAreTheText(text[1..], piece[cut..] + [text[0]], budget);
      assert ([piece[..cut]] + rest)[1..] == rest;
      CutAndOn(piece, cut, text);
    } else {
      PiecesAreTheText(text[1..], piece + [text[0]], budget);
      CutAndOn(piece, 0, text);
    }
  }

  lemma {:induction false} CutAndOn(piece: Text, cut: nat, text: Text)
    requires text != [] && cut <= |piece|
    ensures piece[..cut] + (piece[cut..] + [text[0]] + text[1..]) == piece + text
    ensures piece + [text[0]] + text[1..] == piece + text
  {
  }

  // ---- when every piece fits

  /** What is carried over a cut leaves room for any next character, from seven
      bytes on. */
  lemma {:induction false} RoomAfterCut(piece: Text, budget: nat)
    requires piece != [] && Bytes(piece) <= budget && 7 <= budget
    ensures Bytes(piece[..Cut(piece)]) <= budget && Bytes(piece[Cut(piece)..]) + 4 <= budget
  {
    var cut := Cut(piece);
    var first, carried := piece[..cut], piece[cut..];
    assert piece == first + carried;
    Apart(first, carried);
    Bounds(first);
    Bounds(carried);
    if cut < |piece| {
      assert first == piece[..cut - 1] + [SPACE];
      OneLonger(piece[..cut - 1], SPACE);
    } else {
      assert carried == [];
    }
  }

  lemma {:induction false} PiecesFit(text: Text, piece: Text, budget: nat)
    requires 7 <= budget && Bytes(piece) <= budget
    ensures forall p | p in Pieces(text, piece, budget) :: Bytes(p) <= budget
    decreases |text|
  {
    if text != [] {
      if Bytes(piece) + Size(text[0]) > budget && piece != [] {
        RoomAfterCut(piece, budget);
        OneLonger(piece[Cut(piece)..], text[0]);
        PiecesFit(text[1..], piece[Cut(piece)..] + [text[0]], budget);
      } else {
        OneLonger(piece, text[0]);
        PiecesFit(text[1..], piece + [text[0]], budget);
      }
    }
  }

  ghost predicate AlwaysFits(budget: nat) {
    forall text: Text, p: Text | p in Pieces(text, [], budget) :: Bytes(p) <= budget
  }

  lemma {:induction false} Gathers(c: int, rest: Text, piece: Text, budget: nat)
    requires Bytes(piece) + Size(c) <= budget || piece == []
    ensures Pieces([c] + rest, piece, budget) == Pieces(rest, piece + [c], budget)
    ensures Bytes(piece + [c]) == Bytes(piece) + Size(c) && Length(piece + [c]) == Length(piece) + Units(c)
  {
    assert ([c] + rest)[1..] == rest;
    OneLonger(piece, c);
  }

  lemma {:induction false} TwoLettersAndSpace(rest: Text, budget: nat)
    requires 3 <= budget
    ensures Pieces([97, 98, SPACE] + rest, [], budget) == Pieces(rest, [97, 98, SPACE], budget) && Bytes([97, 98, SPACE]) == 3
  {
    assert [97, 98, SPACE] + rest == [97] + ([98] + ([SPACE] + rest));
    Gathers(97, [98] + ([SPACE] + rest), [], budget);
    assert [] + [97] == [97];
    Gathers(98, [SPACE] + rest, [97], budget);
    assert [97] + [98] == [97, 98];
    Gathers(SPACE, rest, [97, 98], budget);
    assert [97, 98] + [SPACE] == [97, 98, SPACE];
  }

  /** Two letters, a space, a character as large as the budget still allows, and
      one of four bytes: the cut carries the first over to the second. */
  lemma {:induction false} CarriedOver(x: int, budget: nat)
    requires x != SPACE && x < 0x10000 && 3 + Size(x) == budget
    ensures Pieces([97, 98, SPACE] + [x, 0x10000], [], budget) == [[97, 98, SPACE], [x, 0x10000]]
  {
    TwoLettersAndSpace([x, 0x10000], budget);
    var piece := [97, 98, SPACE, x];
    assert [x, 0x10000] == [x] + [0x10000];
    Gathers(x, [0x10000], [97, 98, SPACE], budget);
    assert [97, 98, SPACE] + [x] == piece;
    CutBefore(x);
    assert piece[..3] == [97, 98, SPACE] && piece[3..] == [x];
    LastPiece([x], 0x10000, budget);
    assert [[97, 98, SPACE]] + [[x, 0x10000]] == [[97, 98, SPACE], [x, 0x10000]];
  }

  lemma {:induction false} LastPiece(piece: Text, c: int, budget: nat)
    ensures Pieces([c][1..], piece + [c], budget) == [piece + [c]]
  {
    assert [c][1..] == [];
  }

  lemma {:induction false} CutBefore(x: int)
    requires x != SPACE && x < 0x10000
    ensures Cut([97, 98, SPACE, x]) == 3
  {
    var piece := [97, 98, SPACE, x];
    assert piece[..3] == [97, 98, SPACE] && piece[..2] == [97, 98] && piece[..1] == [97];
    OneLonger([], 97);
    assert [] + [97] == [97];
    OneLonger([97], 98);
    assert [97] + [98] == [97, 98];
    OneLonger([97, 98], SPACE);
    assert [97, 98] + [SPACE] == [97, 98, SPACE];
    OneLonger([97, 98, SPACE], x);
    assert [97, 98, SPACE] + [x] == piece;
    assert AfterLastSpace([97, 98, SPACE]) == 3;
  }

  lemma {:induction false} OneCharacter(c: int, budget: nat)
    ensures Pieces([c], [], budget) == [[c]] && Bytes([c]) == Size(c)
  {
    assert [c] == [c] + [] && [] + [c] == [c];
    Gathers(c, [], [], budget);
  }

  /** A text with a piece over a budget below seven. */
  lemma {:induction false} TooSmall(budget: nat) returns (text: Text, p: Text)
    requires budget < 7
    ensures p in Pieces(text, [], budget) && Bytes(p) > budget
  {
    if budget < 4 {
      text, p := [0x10000], [0x10000];
      OneCharacter(0x10000, budget);
    } else {
      var x := if budget == 4 then 99 else if budget == 5 then 0x80 else 0x800;
      text, p := [97, 98, SPACE] + [x, 0x10000], [x, 0x10000];
      CarriedOver(x, budget);
      OneCharacter(x, budget);
      OneLonger([x], 0x10000);
      assert [x] + [0x10000] == p;
      assert Pieces(text, [], budget)[1] == p;
    }
  }

  /** Every piece of every text fits exactly when the budget is at least seven. */
  lemma {:induction false} AlwaysFitsIff(budget: nat)
    ensures AlwaysFits(budget) <==> budget >= 7
  {
    if budget >= 7 {
      forall text: Text, p: Text | p in Pieces(text, [], budget) ensures Bytes(p) <= budget {
        PiecesFit(text, [], budget);
      }
    } else {
      var text, p := TooSmall(budget);
    }
  }

  // ---- requests

  /** What is typed: plain text, an action, or a message or notice to someone. */
  datatype Kind = Plain | Action | Msg | Notice

  datatype Form = Form(kind: Kind, to: Text, body: Text)

  predicate IsBlank(c: int) {
    || 9 <= c <= 13 || c == 32 || c == 160 || c == 0x1680 || 0x2000 <= c <= 0x200a
    || c == 0x2028 || c == 0x2029 || c == 0x202f || c == 0x205f || c == 0x3000 || c == 0xfeff
  }

  function TrimStart(text: Text): Text {
    if text != [] && IsBlank(text[0]) then TrimStart(text[1..]) else text
  }

  function SpaceAt(text: Text): (at: nat)
    ensures at <= |text|
  {
    if text == [] || text[0] == SPACE then 0 else 1 + SpaceAt(text[1..])
  }

  function BlankAt(text: Text): (at: nat)
    ensures at <= |text|
  {
    if text == [] || IsBlank(text[0]) then 0 else 1 + BlankAt(text[1..])
  }

  function Lowered(text: Text): Text {
    seq(|text|, i requires 0 <= i < |text| => if 65 <= text[i] <= 90 then text[i] + 32 else text[i])
  }

  const ME: Text := [109, 101]
  const MSG: Text := [109, 115, 103]
  const NOTICE: Text := [110, 111, 116, 105, 99, 101]

  function Name(kind: Kind): Text {
    match kind
    case Plain => []
    case Action => ME
    case Msg => MSG
    case Notice => NOTICE
  }

  function Addressed(kind: Kind, rest: Text): Option<Form> {
    var gap := BlankAt(rest);
    if gap == 0 || gap == |rest| then None
    else
      var body := TrimStart(rest[gap + 1..]);
      if body == [] then None else Some(Form(kind, rest[..gap], body))
  }

  /** The message a request sends and may be split; none for a request that is sent
      exactly as typed. */
  function FormOf(text: Text, target: Text): Option<Form> {
    if text == [] || text[0] != SLASH then
      if target != [] && text != [] then Some(Form(Plain, target, text)) else None
    else
      var slash := text[1..];
      var space := SpaceAt(slash);
      var command, rest := Lowered(slash[..space]), TrimStart(if space == |slash| then [] else slash[space + 1..]);
      if command == ME then (if target != [] && rest != [] then Some(Form(Action, target, rest)) else None)
      else if command == MSG then Addressed(Msg, rest)
      else if command == NOTICE then Addressed(Notice, rest)
      else None
  }

  /** The request for one piece of a form's body. */
  function Composed(form: Form, piece: Text): Text {
    match form.kind
    case Plain => piece
    case Action => [SLASH] + ME + [SPACE] + piece
    case _ => [SLASH] + Name(form.kind) + [SPACE] + form.to + [SPACE] + piece
  }

  const IRC_LINE_BYTES: nat := 510
  const SOURCE_ROOM_BYTES: nat := 1 + 1 + 11 + 1 + 63 + 1
  const UNKNOWN_NICK_BYTES: nat := 30

  /** The line's command, target and wrapping, without the body. */
  function Frame(form: Form): nat {
    match form.kind
    case Notice => 6 + 1 + Bytes(form.to) + 2
    case Action => 7 + 1 + Bytes(form.to) + 2 + 9
    case _ => 7 + 1 + Bytes(form.to) + 2
  }

  function Source(nick: Text): nat {
    SOURCE_ROOM_BYTES + if nick == [] then UNKNOWN_NICK_BYTES else Bytes(nick)
  }

  /** How long the line is when it is relayed behind the sender's source. */
  function Relayed(form: Form, nick: Text, piece: Text): nat {
    Source(nick) + Frame(form) + Bytes(piece)
  }

  function Budget(form: Form, nick: Text): int {
    IRC_LINE_BYTES - Source(nick) - Frame(form)
  }

  /** Whether a message goes as typed: it fits one line, or no line could hold any
      of it. */
  predicate IsWhole(form: Form, nick: Text) {
    Budget(form, nick) < 1 || Bytes(form.body) <= Budget(form, nick)
  }

  function PiecesOf(form: Form, nick: Text): seq<Text> {
    if IsWhole(form, nick) then [form.body] else Pieces(form.body, [], Budget(form, nick))
  }

  /** A message as typed when it is whole, else one request for each piece. */
  predicate Sends(form: Form, text: Text, nick: Text, requests: seq<Text>) {
    var pieces := PiecesOf(form, nick);
    && |requests| == |pieces|
    && (if IsWhole(form, nick) then requests == [text] else forall i | 0 <= i < |pieces| :: requests[i] == Composed(form, pieces[i]))
  }

  /** The pieces make up the body, none is empty, and each is relayed within one
      line. */
  lemma {:induction false} PiecesAreRelayed(form: Form, nick: Text)
    requires form.body != []
    ensures Joined(PiecesOf(form, nick)) == form.body && forall p | p in PiecesOf(form, nick) :: p != []
    ensures Budget(form, nick) >= 7 ==> forall p | p in PiecesOf(form, nick) :: Relayed(form, nick, p) <= IRC_LINE_BYTES
  {
    if IsWhole(form, nick) {
      assert Joined([form.body]) == form.body + Joined([form.body][1..]);
    } else {
      PiecesAreTheText(form.body, [], Budget(form, nick));
      assert [] + form.body == form.body;
      if Budget(form, nick) >= 7 {
        PiecesFit(form.body, [], Budget(form, nick));
      }
    }
  }

  // ---- the line as it is relayed

  /** The characters of a word. */
  function Characters(word: string): Text {
    seq(|word|, i requires 0 <= i < |word| => word[i] as int)
  }

  lemma {:induction false} PlainCharacters(word: string)
    requires forall i | 0 <= i < |word| :: word[i] as int < 0x80
    ensures Bytes(Characters(word)) == |word|
  {
    if word != [] {
      var front := word[..|word| - 1];
      PlainCharacters(front);
      assert Characters(word)[..|word| - 1] == Characters(front);
    }
  }

  /** The body as it is sent: `/me` is a CTCP action. */
  function Wrapped(kind: Kind, piece: Text): Text {
    if kind.Action? then Characters("\U{1}ACTION ") + piece + Characters("\U{1}") else piece
  }

  function Sender(nick: Text, user: Text, host: Text): Text {
    Characters(":") + nick + Characters("!") + user + Characters("@") + host + Characters(" ")
  }

  function Command(kind: Kind): string {
    if kind.Notice? then "NOTICE " else "PRIVMSG "
  }

  /** The line others get: who sent it, the command, to whom, and the body. */
  function RelayedLine(form: Form, nick: Text, user: Text, host: Text, piece: Text): Text {
    Sender(nick, user, host) + Characters(Command(form.kind)) + form.to + Characters(" :") + Wrapped(form.kind, piece)
  }

  lemma {:induction false} SenderBytes(nick: Text, user: Text, host: Text)
    ensures Bytes(Sender(nick, user, host)) == 4 + Bytes(nick) + Bytes(user) + Bytes(host)
  {
    PlainCharacters(":");
    PlainCharacters("!");
    PlainCharacters("@");
    PlainCharacters(" ");
    Apart(Characters(":"), nick);
    Apart(Characters(":") + nick, Characters("!"));
    Apart(Characters(":") + nick + Characters("!"), user);
    Apart(Characters(":") + nick + Characters("!") + user, Characters("@"));
    Apart(Characters(":") + nick + Characters("!") + user + Characters("@"), host);
    Apart(Characters(":") + nick + Characters("!") + user + Characters("@") + host, Characters(" "));
  }

  lemma {:induction false} WrappedBytes(kind: Kind, piece: Text)
    ensures Bytes(Wrapped(kind, piece)) == Bytes(piece) + if kind.Action? then 9 else 0
  {
    PlainCharacters("\U{1}ACTION ");
    PlainCharacters("\U{1}");
    Apart(Characters("\U{1}ACTION "), piece);
    Apart(Characters("\U{1}ACTION ") + piece, Characters("\U{1}"));
  }

  /** The line is as long as the sender's source and what is sent behind it. */
  lemma {:induction false} RelayedBytes(form: Form, nick: Text, user: Text, host: Text, piece: Text)
    ensures Bytes(RelayedLine(form, nick, user, host, piece))
         == 4 + Bytes(nick) + Bytes(user) + Bytes(host) + Frame(form) + Bytes(piece)
  {
    var sender, command := Sender(nick, user, host), Characters(Command(form.kind));
    SenderBytes(nick, user, host);
    WrappedBytes(form.kind, piece);
    PlainCharacters(Command(form.kind));
    PlainCharacters(" :");
    Apart(sender, command);
    Apart(sender + command, form.to);
    Apart(sender + command + form.to, Characters(" :"));
    Apart(sender + command + form.to + Characters(" :"), Wrapped(form.kind, piece));
  }

  /** A source within the room that is kept for it: the nick is the one that is known, or
      one of the customary length. */
  predicate IsSource(known: Text, nick: Text, user: Text, host: Text) {
    && (if known == [] then Bytes(nick) <= 30 else nick == known)
    && Bytes(user) <= 11 && Bytes(host) <= 63
  }

  /** Every piece, relayed behind such a source, is within 510 bytes, whenever a line has
      room for seven bytes of it. */
  lemma {:induction false} LinesFit(form: Form, known: Text, nick: Text, user: Text, host: Text, piece: Text)
    requires form.body != [] && IsSource(known, nick, user, host) && piece in PiecesOf(form, known) && Budget(form, known) >= 7
    ensures Bytes(RelayedLine(form, nick, user, host, piece)) <= 510
  {
    PiecesAreRelayed(form, known);
    RelayedBytes(form, nick, user, host, piece);
  }

  /** What is typed goes as it is exactly when it would fit behind the longest such source,
      or nothing would. */
  lemma {:induction false} WholeIff(form: Form, known: Text, nick: Text, user: Text, host: Text)
    requires IsSource(known, nick, user, host) && Bytes(user) == 11 && Bytes(host) == 63 && (known == [] ==> Bytes(nick) == 30)
    ensures IsWhole(form, known) <==>
              || Bytes(RelayedLine(form, nick, user, host, form.body)) <= 510
              || Bytes(RelayedLine(form, nick, user, host, [])) >= 510
  {
    RelayedBytes(form, nick, user, host, form.body);
    RelayedBytes(form, nick, user, host, []);
  }

  method ComposeAll(form: Form, pieces: seq<Text>) returns (requests: seq<Text>)
    ensures |requests| == |pieces| && forall i | 0 <= i < |pieces| :: requests[i] == Composed(form, pieces[i])
  {
    requests := [];
    for i := 0 to |pieces|
      invariant |requests| == i && forall j | 0 <= j < i :: requests[j] == Composed(form, pieces[j])
    {
      requests := requests + [Composed(form, pieces[i])];
    }
  }

  /** The requests for a message, whole when it fits one line or no line could. */
  method RequestsFor(form: Form, text: Text, nick: Text) returns (requests: seq<Text>)
    ensures Sends(form, text, nick, requests)
  {
    var budget := Budget(form, nick);
    if budget < 1 || Bytes(form.body) <= budget {
      return [text];
    }
    var pieces := SplitUtf8(form.body, budget);
    requests := ComposeAll(form, pieces);
  }

  method ComposerRequests(text: Text, target: Text, nick: Text) returns (requests: seq<Text>)
    ensures FormOf(text, target).None? ==> requests == [text]
    ensures FormOf(text, target).Some? ==> Sends(FormOf(text, target).value, text, nick, requests)
    ensures FormOf(text, target).Some? ==> ReadBackIfClean(FormOf(text, target).value, target, nick, requests)
  {
    var form := FormOf(text, target);
    if form.None? {
      return [text];
    }
    requests := RequestsFor(form.value, text, nick);
    AllReadBackIff(text, target, nick, requests);
  }

  // ---- a request is read back as the piece it was made for

  predicate NoBlanks(text: Text) {
    forall i | 0 <= i < |text| :: !IsBlank(text[i])
  }

  lemma {:induction false} BlankAfter(word: Text, c: int, rest: Text)
    requires NoBlanks(word) && IsBlank(c)
    ensures BlankAt(word + [c] + rest) == |word|
  {
    var text := word + [c] + rest;
    if word != [] {
      assert text[0] == word[0] && text[1..] == word[1..] + [c] + rest;
      BlankAfter(word[1..], c, rest);
    }
  }

  lemma {:induction false} BeforeBlank(text: Text)
    ensures NoBlanks(text[..BlankAt(text)])
  {
    if text != [] && !IsBlank(text[0]) {
      BeforeBlank(text[1..]);
      forall i | 0 <= i < BlankAt(text) ensures !IsBlank(text[i]) {
        if i > 0 {
          assert text[i] == text[1..][..BlankAt(text[1..])][i - 1];
        }
      }
    }
  }

  lemma {:induction false} CommandOf(name: Text, rest: Text)
    requires name == ME || name == MSG || name == NOTICE
    ensures SpaceAt(name + [SPACE] + rest) == |name| && Lowered(name) == name
    ensures (name + [SPACE] + rest)[..|name|] == name && (name + [SPACE] + rest)[|name| + 1..] == rest
  {
    WordBeforeSpace(name, rest);
  }

  lemma {:induction false} WordBeforeSpace(word: Text, rest: Text)
    requires forall i | 0 <= i < |word| :: word[i] != SPACE
    ensures SpaceAt(word + [SPACE] + rest) == |word|
  {
    var text := word + [SPACE] + rest;
    if word != [] {
      assert text[0] == word[0] && text[1..] == word[1..] + [SPACE] + rest;
      WordBeforeSpace(word[1..], rest);
    }
  }

  lemma {:induction false} Trimmed(piece: Text)
    requires piece != []
    ensures TrimStart(piece) == piece <==> !IsBlank(piece[0])
    ensures |TrimStart(piece)| <= |piece|
  {
    if IsBlank(piece[0]) && piece[1..] != [] {
      Trimmed(piece[1..]);
    }
  }

  /** The target of an addressed form is one word. */
  lemma {:induction false} TargetIsAWord(text: Text, target: Text)
    requires FormOf(text, target).Some? && FormOf(text, target).value.kind in {Msg, Notice}
    ensures var to := FormOf(text, target).value.to; to != [] && NoBlanks(to)
  {
    var slash := text[1..];
    var space := SpaceAt(slash);
    BeforeBlank(TrimStart(if space == |slash| then [] else slash[space + 1..]));
  }

  predicate ReadsBack(form: Form, target: Text, piece: Text) {
    FormOf(Composed(form, piece), target) == Some(form.(body := piece))
  }

  lemma {:induction false} ActionReadsBack(target: Text, piece: Text)
    requires target != [] && piece != []
    ensures forall body: Text :: ReadsBack(Form(Action, target, body), target, piece) <==> !IsBlank(piece[0])
  {
    var text := [SLASH] + ME + [SPACE] + piece;
    assert text[1..] == ME + [SPACE] + piece;
    CommandOf(ME, piece);
    Trimmed(piece);
  }

  lemma {:induction false} AddressedTo(kind: Kind, to: Text, piece: Text)
    requires to != [] && NoBlanks(to) && piece != []
    ensures TrimStart(to + [SPACE] + piece) == to + [SPACE] + piece
    ensures Addressed(kind, to + [SPACE] + piece) == if TrimStart(piece) == [] then None else Some(Form(kind, to, TrimStart(piece)))
  {
    var rest := to + [SPACE] + piece;
    assert rest[0] == to[0];
    BlankAfter(to, SPACE, piece);
    assert rest[..|to|] == to && rest[|to| + 1..] == piece;
  }

  lemma {:induction false} AddressedRequest(form: Form, target: Text, piece: Text)
    requires form.kind in {Msg, Notice}
    ensures FormOf(Composed(form, piece), target) == Addressed(form.kind, TrimStart(form.to + [SPACE] + piece))
  {
    var name, rest := Name(form.kind), form.to + [SPACE] + piece;
    assert Composed(form, piece)[1..] == name + [SPACE] + rest;
    CommandOf(name, rest);
  }

  lemma {:induction false} AddressedReadsBack(form: Form, target: Text, piece: Text)
    requires form.kind in {Msg, Notice} && form.to != [] && NoBlanks(form.to) && piece != []
    ensures ReadsBack(form, target, piece) <==> !IsBlank(piece[0])
  {
    AddressedRequest(form, target, piece);
    AddressedTo(form.kind, form.to, piece);
    Trimmed(piece);
  }

  /** A piece's request says what the piece says, to whom the whole was said,
      exactly when the piece does not begin with what the composer reads as
      something else: a slash in plain text, a blank in the other forms. */
  lemma {:induction false} ReadsBackIff(text: Text, target: Text, piece: Text)
    requires FormOf(text, target).Some? && piece != []
    ensures var form := FormOf(text, target).value;
            ReadsBack(form, target, piece) <==> if form.kind.Plain? then piece[0] != SLASH else !IsBlank(piece[0])
  {
    var form := FormOf(text, target).value;
    match form.kind
    case Plain => SlashIsNotPlain(piece, target);
    case Action => ActionReadsBack(target, piece);
    case _ =>
      TargetIsAWord(text, target);
      AddressedReadsBack(form, target, piece);
  }

  lemma {:induction false} SlashIsNotPlain(piece: Text, target: Text)
    requires piece != []
    ensures piece[0] == SLASH && FormOf(piece, target).Some? ==> !FormOf(piece, target).value.kind.Plain?
  {
  }

  /** A piece that the composer would read as something other than its kind. */
  predicate Misleads(kind: Kind, piece: Text) {
    piece != [] && if kind.Plain? then piece[0] == SLASH else IsBlank(piece[0])
  }

  /** Every request is read as the message its piece is. */
  predicate AllReadBack(form: Form, target: Text, requests: seq<Text>, pieces: seq<Text>)
    requires |requests| == |pieces|
  {
    forall i | 0 <= i < |pieces| :: FormOf(requests[i], target) == Some(form.(body := pieces[i]))
  }

  /** No cut leaves a piece that begins so. */
  predicate CutsClean(form: Form, nick: Text) {
    forall i | 0 < i < |PiecesOf(form, nick)| :: !Misleads(form.kind, PiecesOf(form, nick)[i])
  }

  /** The requests are all read as the pieces exactly when the cuts are clean. */
  predicate ReadBackIfClean(form: Form, target: Text, nick: Text, requests: seq<Text>) {
    && |requests| == |PiecesOf(form, nick)|
    && (AllReadBack(form, target, requests, PiecesOf(form, nick)) <==> CutsClean(form, nick))
  }

  lemma {:induction false} BodyIsNot(text: Text, target: Text)
    requires FormOf(text, target).Some?
    ensures var form := FormOf(text, target).value; form.body != [] && !Misleads(form.kind, form.body)
  {
    var form := FormOf(text, target).value;
    if !form.kind.Plain? {
      var slash := text[1..];
      var space := SpaceAt(slash);
      var rest := if space == |slash| then [] else slash[space + 1..];
      NoBlankFirst(rest);
      if form.kind != Action {
        NoBlankFirst(TrimStart(rest)[BlankAt(TrimStart(rest)) + 1..]);
      }
    }
  }

  lemma {:induction false} NoBlankFirst(text: Text)
    ensures TrimStart(text) != [] ==> !IsBlank(TrimStart(text)[0])
  {
    if text != [] && IsBlank(text[0]) {
      NoBlankFirst(text[1..]);
    }
  }

  /** The requests of a message are all read as its pieces exactly when no piece
      but the first begins with a slash, in plain text, or a blank, in the other
      forms. */
  lemma {:induction false} AllReadBackIff(text: Text, target: Text, nick: Text, requests: seq<Text>)
    requires FormOf(text, target).Some? && Sends(FormOf(text, target).value, text, nick, requests)
    ensures ReadBackIfClean(FormOf(text, target).value, target, nick, requests)
  {
    var form := FormOf(text, target).value;
    BodyIsNot(text, target);
    if !IsWhole(form, nick) {
      PiecesAreRelayed(form, nick);
      var pieces := PiecesOf(form, nick);
      FirstBegins(pieces, form.body);
      forall i | 0 <= i < |pieces|
        ensures FormOf(requests[i], target) == Some(form.(body := pieces[i])) <==> !Misleads(form.kind, pieces[i])
      {
        assert pieces[i] in pieces;
        ReadsBackIff(text, target, pieces[i]);
      }
    }
  }

  lemma {:induction false} FirstBegins(pieces: seq<Text>, body: Text)
    requires Joined(pieces) == body && body != [] && forall p | p in pieces :: p != []
    ensures pieces != [] && pieces[0] != [] && pieces[0][0] == body[0]
  {
    assert pieces[0] in pieces;
  }

  // ---- such cuts are made

  function Letters(n: nat): (word: Text)
    ensures |word| == n && forall i | 0 <= i < n :: word[i] == 97
  {
    seq(n, _ => 97)
  }

  lemma {:induction false} LettersSize(word: Text)
    requires forall i | 0 <= i < |word| :: word[i] == 97
    ensures Bytes(word) == |word| == Length(word)
  {
    if word != [] {
      LettersSize(word[..|word| - 1]);
    }
  }

  lemma {:induction false} GathersAll(text: Text, rest: Text, piece: Text, budget: nat)
    requires Bytes(piece) + Bytes(text) <= budget
    ensures Pieces(text + rest, piece, budget) == Pieces(rest, piece + text, budget)
    decreases |text|
  {
    if text == [] {
      assert text + rest == rest && piece + text == piece;
    } else {
      var c, more := text[0], text[1..];
      assert text == [c] + more;
      Apart([c], more);
      OneCharacter(c, budget);
      Gathers(c, more + rest, piece, budget);
      GathersAll(more, rest, piece + [c], budget);
      Glue([c], more, rest);
      Glue(piece, [c], more);
    }
  }

  lemma {:induction false} CutAt(first: Text, last: Text, c: int, budget: nat)
    requires Bytes(first + last) <= budget < Bytes(first + last) + Size(c) && first != []
    requires Cut(first + last) == |first|
    ensures Pieces(first + last + [c], [], budget) == [first, last + [c]]
  {
    var piece := first + last;
    GathersAll(piece, [c], [], budget);
    assert [] + piece == piece;
    assert piece[..|first|] == first && piece[|first|..] == last;
    LastPiece(last, c, budget);
    assert [first] + [last + [c]] == [first, last + [c]];
  }

  /** A second piece that misleads is an unclean cut. */
  lemma {:induction false} Misled(form: Form, nick: Text, budget: nat)
    requires 1 <= budget == Budget(form, nick) < Bytes(form.body) && |Pieces(form.body, [], budget)| == 2
    requires Misleads(form.kind, Pieces(form.body, [], budget)[1])
    ensures !CutsClean(form, nick)
  {
    assert PiecesOf(form, nick) == Pieces(form.body, [], budget);
  }

  /** Letters and a space that all but fill a line, then a slash. */
  lemma {:induction false} SlashPiece(budget: nat) returns (text: Text)
    requires budget >= 4
    ensures text != [] && text[0] != SLASH && Bytes(text) > budget
    ensures |Pieces(text, [], budget)| == 2 && Misleads(Plain, Pieces(text, [], budget)[1])
  {
    var word := Letters(budget - 2);
    var first := word + [SPACE];
    text := first + [SLASH] + [98];
    LettersSize(word);
    OneLonger(word, SPACE);
    OneLonger(first, SLASH);
    OneLonger(first + [SLASH], 98);
    CutAfterWord(word);
    CutAt(first, [SLASH], 98, budget);
    assert text[0] == word[0];
  }

  /** In plain text to anyone the second request can be not the piece but a
      command. */
  lemma {:induction false} SlashIsCutOff(target: Text, nick: Text) returns (text: Text)
    requires target != [] && Budget(Form(Plain, target, []), nick) >= 4
    ensures FormOf(text, target) == Some(Form(Plain, target, text)) && !CutsClean(Form(Plain, target, text), nick)
  {
    text := SlashPiece(Budget(Form(Plain, target, []), nick));
    Misled(Form(Plain, target, text), nick, Budget(Form(Plain, target, []), nick));
  }

  lemma {:induction false} CutAfterWord(word: Text)
    requires Length(word) >= 2
    ensures Cut(word + [SPACE] + [SLASH]) == |word| + 1
  {
    var first := word + [SPACE];
    OneLonger(word, SPACE);
    OneLonger(first, SLASH);
    assert (first + [SLASH])[..|first|] == first && (first + [SLASH])[..|word|] == word;
    assert AfterLastSpace(first) == |first|;
  }

  /** A word as long as a line, and a blank after it. */
  lemma {:induction false} BlankPiece(budget: nat) returns (text: Text)
    requires budget >= 2
    ensures text != [] && !IsBlank(text[0]) && Bytes(text) > budget
    ensures Pieces(text, [], budget) == [Letters(budget), [SPACE, 98]]
  {
    var word := Letters(budget);
    text := word + [SPACE] + [98];
    LettersSize(word);
    OneLonger(word, SPACE);
    OneLonger(word + [SPACE], 98);
    WordThenBlank(word, budget);
    assert text[0] == word[0];
  }

  lemma {:induction false} ReadsItself(form: Form, target: Text)
    requires !form.kind.Plain? && form.to != [] && (if form.kind.Action? then form.to == target else NoBlanks(form.to))
    requires form.body != [] && !IsBlank(form.body[0])
    ensures FormOf(Composed(form, form.body), target) == Some(form)
  {
    if form.kind.Action? {
      ActionReadsBack(target, form.body);
      assert ReadsBack(Form(Action, target, form.body), target, form.body);
    } else {
      AddressedReadsBack(form, target, form.body);
    }
  }

  /** In the other forms the second request can lose a blank. */
  lemma {:induction false} BlankIsCutOff(kind: Kind, to: Text, target: Text, nick: Text) returns (text: Text)
    requires !kind.Plain? && to != [] && (if kind.Action? then to == target else NoBlanks(to))
    requires Budget(Form(kind, to, []), nick) >= 2
    ensures FormOf(text, target).Some? && FormOf(text, target).value.kind == kind && !CutsClean(FormOf(text, target).value, nick)
  {
    var body := BlankPiece(Budget(Form(kind, to, []), nick));
    text := Composed(Form(kind, to, body), body);
    ReadsItself(Form(kind, to, body), target);
    Misled(Form(kind, to, body), nick, Budget(Form(kind, to, []), nick));
  }

  lemma {:induction false} WordThenBlank(word: Text, budget: nat)
    requires Bytes(word) == budget >= 2 && forall i | 0 <= i < |word| :: word[i] == 97
    ensures Pieces(word + [SPACE] + [98], [], budget) == [word, [SPACE, 98]]
  {
    Glue(word, [SPACE], [98]);
    GathersAll(word, [SPACE] + [98], [], budget);
    assert [] + word == word;
    var rest := [SPACE] + [98];
    assert rest[0] == SPACE && rest[1..] == [98];
    assert Cut(word) == |word|;
    assert word[..|word|] == word && word[|word|..] + [SPACE] == [SPACE];
    OneCharacter(SPACE, budget);
    assert [98] == [98] + [];
    Gathers(98, [], [SPACE], budget);
    assert [SPACE] + [98] == [SPACE, 98];
    assert [word] + [[SPACE, 98]] == [word, [SPACE, 98]];
  }
}
