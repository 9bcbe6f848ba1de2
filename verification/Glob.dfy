/**
  Hostmask globs: `*` stands for any run of bytes, `?` for any one, anything
  else for itself. The shipped matcher backtracks over one remembered `*`; the
  table its fuzzing trusts is filled bottom up. Both are proved to decide the
  same thing: whether the text splits into one piece per pattern byte.
 */
module Glob {
  import opened Wrappers
  import opened Casemap

  const STAR: int := '*' as int
  const ANY: int := '?' as int

  type Bytes = seq<int>

  // ---- what a glob means

  predicate PieceFits(c: int, piece: Bytes) {
    c == STAR || (|piece| == 1 && (c == ANY || c == piece[0]))
  }

  function Concat(pieces: seq<Bytes>): Bytes {
    if pieces == [] then [] else pieces[0] + Concat(pieces[1..])
  }

  /** `pieces` is a way to read `text` as `pattern`. */
  ghost predicate Reads(pattern: Bytes, text: Bytes, pieces: seq<Bytes>) {
    && |pieces| == |pattern|
    && Concat(pieces) == text
    && forall i | 0 <= i < |pattern| :: PieceFits(pattern[i], pieces[i])
  }

  ghost predicate Matches(pattern: Bytes, text: Bytes) {
    exists pieces :: Reads(pattern, text, pieces)
  }

  // ---- the same, one byte at a time

  predicate Step(c: int, b: int) {
    c == ANY || c == b
  }

  predicate Fits(pattern: Bytes, text: Bytes)
    decreases |pattern| + |text|
  {
    if pattern == [] then text == []
    else if pattern[0] == STAR then Fits(pattern[1..], text) || (text != [] && Fits(pattern, text[1..]))
    else text != [] && Step(pattern[0], text[0]) && Fits(pattern[1..], text[1..])
  }

  lemma {:induction false} FitsReads(pattern: Bytes, text: Bytes) returns (pieces: seq<Bytes>)
    requires Fits(pattern, text)
    ensures Reads(pattern, text, pieces)
    decreases |pattern| + |text|
  {
    if pattern == [] {
      return [];
    }
    if pattern[0] == STAR && !Fits(pattern[1..], text) {
      var rest := FitsReads(pattern, text[1..]);
      pieces := rest[0 := [text[0]] + rest[0]];
      assert Concat(rest) == rest[0] + Concat(rest[1..]) && pieces[1..] == rest[1..];
      assert Concat(pieces) == [text[0]] + Concat(rest);
    } else {
      var first := if pattern[0] == STAR then [] else [text[0]];
      var rest := FitsReads(pattern[1..], if pattern[0] == STAR then text else text[1..]);
      pieces := [first] + rest;
      assert pieces[1..] == rest;
      assert forall i | 1 <= i < |pattern| :: pattern[i] == pattern[1..][i - 1] && pieces[i] == rest[i - 1];
    }
  }

  lemma {:induction false} ReadsFits(pattern: Bytes, text: Bytes, pieces: seq<Bytes>)
    requires Reads(pattern, text, pieces)
    ensures Fits(pattern, text)
    decreases |pattern|
  {
    if pattern != [] {
      var rest := Concat(pieces[1..]);
      assert forall i | 0 < i < |pattern| :: pattern[i] == pattern[1..][i - 1] && pieces[i] == pieces[1..][i - 1];
      assert Reads(pattern[1..], rest, pieces[1..]);
      ReadsFits(pattern[1..], rest, pieces[1..]);
      if pattern[0] == STAR {
        StarTakes(pattern, pieces[0], rest);
      } else {
        assert text[1..] == rest;
      }
    }
  }

  /** A `*` may take any run in front of what the rest fits. */
  lemma {:induction false} StarTakes(pattern: Bytes, run: Bytes, text: Bytes)
    requires pattern != [] && pattern[0] == STAR && Fits(pattern, text)
    ensures Fits(pattern, run + text)
    decreases |run|
  {
    if run == [] {
      assert run + text == text;
    } else {
      StarTakes(pattern, run[1..], text);
      assert (run + text)[1..] == run[1..] + text;
    }
  }

  lemma {:induction false} FitsIsMatches(pattern: Bytes, text: Bytes)
    ensures Fits(pattern, text) <==> Matches(pattern, text)
  {
    if Fits(pattern, text) {
      var pieces := FitsReads(pattern, text);
    }
    if Matches(pattern, text) {
      var pieces :| Reads(pattern, text, pieces);
      ReadsFits(pattern, text, pieces);
    }
  }

  // ---- the table

  /** Row `i` of the table says of each `j` whether `pattern[i..]` matches
      `text[j..]`. */
  ghost predicate RowDone(table: array2<bool>, pattern: Bytes, text: Bytes, i: nat)
    requires table.Length0 == |pattern| + 1 && table.Length1 == |text| + 1 && i <= |pattern|
    reads table
  {
    forall j | 0 <= j <= |text| :: table[i, j] == Fits(pattern[i..], text[j..])
  }

  /** Fill row `i` from the row below it, last cell first. */
  method FillRow(table: array2<bool>, pattern: Bytes, text: Bytes, i: nat)
    requires table.Length0 == |pattern| + 1 && table.Length1 == |text| + 1
    requires i < |pattern| && RowDone(table, pattern, text, i + 1)
    modifies table
    ensures RowDone(table, pattern, text, i)
  {
    var j := |text| + 1;
    while j > 0
      invariant 0 <= j <= |text| + 1
      invariant RowDone(table, pattern, text, i + 1)
      invariant forall b | j <= b <= |text| :: table[i, b] == Fits(pattern[i..], text[b..])
    {
      j := j - 1;
      FillCell(table, pattern, text, i, j);
    }
  }

  /** Fill one cell from the one after it and the row below. */
  method FillCell(table: array2<bool>, pattern: Bytes, text: Bytes, i: nat, j: nat)
    requires table.Length0 == |pattern| + 1 && table.Length1 == |text| + 1
    requires i < |pattern| && j <= |text| && RowDone(table, pattern, text, i + 1)
    requires j < |text| ==> table[i, j + 1] == Fits(pattern[i..], text[j + 1..])
    modifies table
    ensures table[i, j] == Fits(pattern[i..], text[j..])
    ensures forall a, b | 0 <= a < table.Length0 && 0 <= b < table.Length1 && !(a == i && b == j) :: table[a, b] == old(table[a, b])
  {
    var m := |text|;
    Cell(pattern, text, i, j);
    table[i, j] := if pattern[i] == STAR then table[i + 1, j] || (j < m && table[i, j + 1])
                   else j < m && (pattern[i] == ANY || pattern[i] == text[j]) && table[i + 1, j + 1];
  }

  /** The textbook dynamic program, filled in place from the far corner. */
  method Reference(pattern: Bytes, text: Bytes) returns (r: bool)
    ensures r <==> Matches(pattern, text)
  {
    var n, m := |pattern|, |text|;
    var table := new bool[n + 1, m + 1]((_, _) => false);
    table[n, m] := true;
    var i := n;
    while i > 0
      invariant 0 <= i <= n
      invariant RowDone(table, pattern, text, i)
    {
      i := i - 1;
      FillRow(table, pattern, text, i);
    }
    assert pattern[0..] == pattern && text[0..] == text;
    FitsIsMatches(pattern, text);
    return table[0, 0];
  }

  lemma {:induction false} Cell(pattern: Bytes, text: Bytes, i: nat, j: nat)
    requires i < |pattern| && j <= |text|
    ensures Fits(pattern[i..], text[j..])
         == if pattern[i] == STAR then Fits(pattern[i + 1..], text[j..]) || (j < |text| && Fits(pattern[i..], text[j + 1..]))
            else j < |text| && Step(pattern[i], text[j]) && Fits(pattern[i + 1..], text[j + 1..])
  {
    assert pattern[i..][0] == pattern[i] && pattern[i..][1..] == pattern[i + 1..];
    if j < |text| {
      assert text[j..][0] == text[j] && text[j..][1..] == text[j + 1..];
    }
  }

  // ---- the shipped matcher

  /** `run`, which has no `*`, matches `text` byte for byte. */
  predicate Literal(run: Bytes, text: Bytes) {
    |run| == |text| && forall i | 0 <= i < |run| :: run[i] != STAR && Step(run[i], text[i])
  }

  lemma {:induction false} LiteralRun(run: Bytes, pattern: Bytes, taken: Bytes, text: Bytes)
    requires Literal(run, taken)
    ensures Fits(run + pattern, taken + text) == Fits(pattern, text)
  {
    if run == [] {
      assert run + pattern == pattern && taken + text == text;
    } else {
      LiteralRun(run[1..], pattern, taken[1..], text);
      assert (run + pattern)[1..] == run[1..] + pattern && (taken + text)[1..] == taken[1..] + text;
    }
  }

  /** What a pattern without `*` in front takes, it takes whole. */
  lemma {:induction false} LiteralLength(run: Bytes, pattern: Bytes, text: Bytes)
    requires (forall i | 0 <= i < |run| :: run[i] != STAR) && Fits(run + pattern, text)
    ensures |run| <= |text| && Fits(pattern, text[|run|..])
  {
    if run == [] {
      assert run + pattern == pattern && text[0..] == text;
    } else {
      assert (run + pattern)[1..] == run[1..] + pattern;
      LiteralLength(run[1..], pattern, text[1..]);
      assert text[1..][|run| - 1..] == text[|run|..];
    }
  }

  /** Under a `*`, the earliest place the bytes up to the next `*` match is as
      good as any: what the rest can do further on, it can do from there. */
  lemma {:induction false} EarliestWillDo(run: Bytes, pattern: Bytes, taken: Bytes, text: Bytes)
    requires Literal(run, taken) && pattern != [] && pattern[0] == STAR
    ensures Fits([STAR] + run + pattern, taken + text) == Fits(pattern, text)
  {
    var whole := [STAR] + run + pattern;
    assert whole[1..] == run + pattern;
    LiteralRun(run, pattern, taken, text);
    if Fits(whole, taken + text) {
      LaterIsNoBetter(run, pattern, taken + text);
      assert (taken + text)[|run|..] == text;
    }
  }

  lemma {:induction false} LaterIsNoBetter(run: Bytes, pattern: Bytes, text: Bytes)
    requires (forall i | 0 <= i < |run| :: run[i] != STAR) && pattern != [] && pattern[0] == STAR
    requires Fits([STAR] + run + pattern, text)
    ensures |run| <= |text| && Fits(pattern, text[|run|..])
    decreases |text|
  {
    var whole := [STAR] + run + pattern;
    assert whole[1..] == run + pattern;
    if Fits(run + pattern, text) {
      LiteralLength(run, pattern, text);
    } else {
      LaterIsNoBetter(run, pattern, text[1..]);
      var rest := text[1..][|run|..];
      assert text[|run|..] == [text[|run|]] + rest;
      StarTakes(pattern, [text[|run|]], rest);
    }
  }

  /** With no text left past the run, the `*` can only have taken nothing. */
  lemma {:induction false} StarTakesNothing(run: Bytes, pattern: Bytes, taken: Bytes)
    requires Literal(run, taken)
    ensures Fits([STAR] + run + pattern, taken) == Fits(pattern, [])
  {
    var whole := [STAR] + run + pattern;
    assert whole[1..] == run + pattern && taken + [] == taken;
    LiteralRun(run, pattern, taken, []);
    if taken != [] && Fits(whole, taken[1..]) {
      TooShort(run, pattern, taken[1..]);
    }
  }

  lemma {:induction false} TooShort(run: Bytes, pattern: Bytes, text: Bytes)
    requires (forall i | 0 <= i < |run| :: run[i] != STAR) && Fits([STAR] + run + pattern, text)
    ensures |run| <= |text|
    decreases |text|
  {
    var whole := [STAR] + run + pattern;
    assert whole[1..] == run + pattern;
    if Fits(run + pattern, text) {
      LiteralLength(run, pattern, text);
    } else {
      TooShort(run, pattern, text[1..]);
    }
  }

  /** What the matcher knows: a last `*` at `sp` that took nothing before `st`,
      and the bytes since, matched one for one. */
  ghost predicate Tracks(pattern: Bytes, text: Bytes, p: nat, t: nat, star: Option<(nat, nat)>) {
    && p <= |pattern| && t <= |text|
    && match star
       case None => Fits(pattern, text) == Fits(pattern[p..], text[t..])
       case Some((sp, st)) =>
         && sp < p && st <= t && pattern[sp] == STAR
         && Literal(pattern[sp + 1..p], text[st..t])
         && Fits(pattern, text) == Fits(pattern[sp..], text[st..])
  }

  /** Iterative wildcard match with backtracking over the last `*`. */
  method Matcher(pattern: Bytes, text: Bytes) returns (r: bool)
    ensures r <==> Matches(pattern, text)
  {
    FitsIsMatches(pattern, text);
    var p, t := 0, 0;
    var star: Option<(nat, nat)> := None;
    assert pattern[0..] == pattern && text[0..] == text;
    while t < |text|
      invariant Tracks(pattern, text, p, t, star)
      decreases if star.None? then |text| + 1 else |text| - star.value.1, |pattern| - p
    {
      if p < |pattern| && pattern[p] == STAR {
        NewStar(pattern, text, p, t, star);
        star := Some((p, t));
        p := p + 1;
      } else if p < |pattern| && (pattern[p] == ANY || pattern[p] == text[t]) {
        OneMore(pattern, text, p, t, star);
        p, t := p + 1, t + 1;
      } else {
        match star
        case Some((sp, st)) =>
          GiveUp(pattern, text, p, t, sp, st);
          p, t, star := sp + 1, st + 1, Some((sp, st + 1));
        case None =>
          NoStar(pattern, text, p, t);
          return false;
      }
    }
    AtTheEnd(pattern, text, p, star);
    r := RestIsStars(pattern, p);
  }

  /** The end of the text is the end of a match when only `*` is left. */
  method RestIsStars(pattern: Bytes, from: nat) returns (r: bool)
    requires from <= |pattern|
    ensures r <==> Fits(pattern[from..], [])
  {
    var p := from;
    while p < |pattern| && pattern[p] == STAR
      invariant from <= p <= |pattern|
      invariant Fits(pattern[from..], []) == Fits(pattern[p..], [])
    {
      Cell(pattern, [], p, 0);
      p := p + 1;
    }
    if p < |pattern| {
      Cell(pattern, [], p, 0);
    }
    return p == |pattern|;
  }

  lemma {:induction false} NoStar(pattern: Bytes, text: Bytes, p: nat, t: nat)
    requires Tracks(pattern, text, p, t, None) && t < |text|
    requires p < |pattern| ==> pattern[p] != STAR && !Step(pattern[p], text[t])
    ensures !Fits(pattern, text)
  {
    if p < |pattern| {
      Cell(pattern, text, p, t);
    }
  }

  lemma {:induction false} NewStar(pattern: Bytes, text: Bytes, p: nat, t: nat, star: Option<(nat, nat)>)
    requires Tracks(pattern, text, p, t, star) && p < |pattern| && pattern[p] == STAR
    ensures Tracks(pattern, text, p + 1, t, Some((p, t)))
  {
    if star.Some? {
      var (sp, st) := star.value;
      assert pattern[sp..] == [STAR] + pattern[sp + 1..p] + pattern[p..];
      assert text[st..] == text[st..t] + text[t..];
      EarliestWillDo(pattern[sp + 1..p], pattern[p..], text[st..t], text[t..]);
    }
  }

  lemma {:induction false} OneMore(pattern: Bytes, text: Bytes, p: nat, t: nat, star: Option<(nat, nat)>)
    requires Tracks(pattern, text, p, t, star) && p < |pattern| && t < |text|
    requires pattern[p] != STAR && Step(pattern[p], text[t])
    ensures Tracks(pattern, text, p + 1, t + 1, star)
  {
    match star
    case None => Cell(pattern, text, p, t);
    case Some((sp, st)) =>
      assert pattern[sp + 1..p + 1] == pattern[sp + 1..p] + [pattern[p]];
      assert text[st..t + 1] == text[st..t] + [text[t]];
  }

  lemma {:induction false} GiveUp(pattern: Bytes, text: Bytes, p: nat, t: nat, sp: nat, st: nat)
    requires Tracks(pattern, text, p, t, Some((sp, st))) && t < |text|
    requires p < |pattern| ==> pattern[p] != STAR && !Step(pattern[p], text[t])
    ensures Tracks(pattern, text, sp + 1, st + 1, Some((sp, st + 1)))
  {
    var run, taken := pattern[sp + 1..p], text[st..t];
    assert pattern[sp + 1..] == run + pattern[p..] && text[st..] == taken + text[t..];
    LiteralRun(run, pattern[p..], taken, text[t..]);
    if p < |pattern| {
      Cell(pattern, text, p, t);
    }
    Cell(pattern, text, sp, st);
  }

  lemma {:induction false} AtTheEnd(pattern: Bytes, text: Bytes, p: nat, star: Option<(nat, nat)>)
    requires Tracks(pattern, text, p, |text|, star)
    ensures Fits(pattern, text) == Fits(pattern[p..], [])
  {
    assert text[|text|..] == [];
    if star.Some? {
      var (sp, st) := star.value;
      assert pattern[sp..] == [STAR] + pattern[sp + 1..p] + pattern[p..];
      assert text[st..] == text[st..|text|];
      StarTakesNothing(pattern[sp + 1..p], pattern[p..], text[st..]);
    }
  }

  // ---- under a case mapping

  /** A mask matches a subject when the subject splits into one piece per mask
      byte, literals taken up to case. */
  ghost predicate MaskMatches(m: CaseMapping, mask: Bytes, subject: Bytes) {
    exists pieces: seq<Bytes> ::
      && |pieces| == |mask|
      && Concat(pieces) == subject
      && forall i | 0 <= i < |mask| :: PieceFits(Lower(m, mask[i]), Fold(m, pieces[i]))
  }

  function FoldAll(m: CaseMapping, pieces: seq<Bytes>): seq<Bytes> {
    seq(|pieces|, i requires 0 <= i < |pieces| => Fold(m, pieces[i]))
  }

  lemma {:induction false} FoldConcat(m: CaseMapping, pieces: seq<Bytes>)
    ensures Concat(FoldAll(m, pieces)) == Fold(m, Concat(pieces))
  {
    if pieces != [] {
      FoldConcat(m, pieces[1..]);
      assert FoldAll(m, pieces)[1..] == FoldAll(m, pieces[1..]);
      assert Fold(m, Concat(pieces)) == Fold(m, pieces[0]) + Fold(m, Concat(pieces[1..]));
    }
  }

  /** Pieces of the lengths of `like`, cut from `text`. */
  lemma {:induction false} Recut(text: Bytes, m: CaseMapping, like: seq<Bytes>) returns (pieces: seq<Bytes>)
    requires Concat(like) == Fold(m, text)
    ensures Concat(pieces) == text && FoldAll(m, pieces) == like
    decreases |like|
  {
    if like == [] {
      return [];
    }
    var k := |like[0]|;
    assert Fold(m, text)[..k] == like[0] && Fold(m, text)[k..] == Concat(like[1..]);
    assert Fold(m, text[..k]) == like[0] && Fold(m, text[k..]) == Concat(like[1..]);
    var rest := Recut(text[k..], m, like[1..]);
    pieces := [text[..k]] + rest;
    assert pieces[1..] == rest;
    assert FoldAll(m, pieces) == [like[0]] + FoldAll(m, rest);
  }

  /** Fold both sides once, then glob: what a ban, quiet or exception is decided
      by. */
  method MaskMatcher(m: CaseMapping, mask: Bytes, subject: Bytes) returns (r: bool)
    ensures r <==> MaskMatches(m, mask, subject)
  {
    r := Matcher(Fold(m, mask), Fold(m, subject));
    FoldedIsMask(m, mask, subject);
  }

  lemma {:induction false} FoldedIsMask(m: CaseMapping, mask: Bytes, subject: Bytes)
    ensures Matches(Fold(m, mask), Fold(m, subject)) <==> MaskMatches(m, mask, subject)
  {
    if Matches(Fold(m, mask), Fold(m, subject)) {
      var like :| Reads(Fold(m, mask), Fold(m, subject), like);
      var pieces := Recut(subject, m, like);
      assert forall i | 0 <= i < |mask| :: Fold(m, pieces[i]) == like[i];
    }
    if MaskMatches(m, mask, subject) {
      var pieces: seq<Bytes> :| |pieces| == |mask| && Concat(pieces) == subject
        && forall i | 0 <= i < |mask| :: PieceFits(Lower(m, mask[i]), Fold(m, pieces[i]));
      FoldConcat(m, pieces);
      assert Reads(Fold(m, mask), Fold(m, subject), FoldAll(m, pieces));
    }
  }
}
