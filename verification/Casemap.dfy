/** When two names are the same: the network's case mapping, on code points. */
module Casemap {

  datatype CaseMapping = Rfc1459 | Rfc1459Strict | Ascii

  /** The lower-case form of one code point. */
  function Lower(m: CaseMapping, c: int): int {
    if 65 <= c <= 90 then c + 32
    else if c == 91 || c == 92 || c == 93 then (if m.Ascii? then c else c + 32)
    else if c == 126 then (if m.Rfc1459? then 94 else c)
    else c
  }

  function Fold(m: CaseMapping, name: seq<int>): (folded: seq<int>)
    ensures |folded| == |name|
    ensures forall i | 0 <= i < |name| :: folded[i] == Lower(m, name[i])
  {
    seq(|name|, i requires 0 <= i < |name| => Lower(m, name[i]))
  }

  /** The pairs of different code points a mapping makes one: the letters of ASCII
      under each, the brackets and the backslash with their shifted forms unless it
      is `ascii`, and the tilde with the caret under `rfc1459` alone. */
  predicate IsCasePair(m: CaseMapping, upper: int, lower: int) {
    || ('A' as int <= upper <= 'Z' as int && lower == upper - 'A' as int + 'a' as int)
    || (!m.Ascii? && (upper, lower) in {('[' as int, '{' as int), ('\\' as int, '|' as int), (']' as int, '}' as int)})
    || (m.Rfc1459? && upper == '~' as int && lower == '^' as int)
  }

  /** Two code points fold alike exactly when they are one, or such a pair. */
  lemma {:induction false} LowerAlikeIff(m: CaseMapping, a: int, b: int)
    ensures Lower(m, a) == Lower(m, b) <==> a == b || IsCasePair(m, a, b) || IsCasePair(m, b, a)
    ensures IsCasePair(m, a, b) ==> Lower(m, a) == b
  {
    assert IsCasePair(m, a, b) ==> Lower(m, a) == b && Lower(m, b) == b;
    assert IsCasePair(m, b, a) ==> Lower(m, b) == a && Lower(m, a) == a;
    if Lower(m, a) == Lower(m, b) && a != b {
      assert Lower(m, a) != a || Lower(m, b) != b;
      assert Lower(m, a) != a ==> IsCasePair(m, a, Lower(m, a));
      assert Lower(m, b) != b ==> IsCasePair(m, b, Lower(m, b));
    }
  }

  /** Two names are the same exactly when they are, letter by letter, one or a pair. */
  lemma {:induction false} SameNameIff(m: CaseMapping, a: seq<int>, b: seq<int>)
    ensures Fold(m, a) == Fold(m, b)
       <==> |a| == |b| && forall i | 0 <= i < |a| :: a[i] == b[i] || IsCasePair(m, a[i], b[i]) || IsCasePair(m, b[i], a[i])
  {
    if |a| == |b| {
      forall i | 0 <= i < |a| ensures Fold(m, a)[i] == Fold(m, b)[i] <==> a[i] == b[i] || IsCasePair(m, a[i], b[i]) || IsCasePair(m, b[i], a[i]) {
        LowerAlikeIff(m, a[i], b[i]);
      }
    }
  }

  /** Folding under any mapping loses nothing `rfc1459` would keep apart: every
      mapping is at least as fine. */
  lemma {:induction false} FinerFold(m: CaseMapping, name: seq<int>)
    ensures Fold(Rfc1459, Fold(m, name)) == Fold(Rfc1459, name)
    ensures Fold(m, Fold(m, name)) == Fold(m, name)
  {
  }
}
