/** The failure-carrying datatypes and the small helpers the models share. */
module Wrappers {

  datatype Option<+T> = None | Some(value: T)

  /** What a fallible operation of the source returns; usable with `:-`. */
  datatype Result<+T, +E> = Ok(value: T) | Err(error: E) {
    predicate IsFailure() {
      Err?
    }

    function PropagateFailure<U>(): Result<U, E>
      requires Err?
    {
      Err(error)
    }

    function Extract(): T
      requires Ok?
    {
      value
    }
  }

  function Min(a: nat, b: nat): nat { if a < b then a else b }
  function Max(a: nat, b: nat): nat { if a < b then b else a }

  /** What is left of `a` without `b`, or nothing. */
  function Less(a: nat, b: nat): nat { if a < b then 0 else a - b }

  /** Where `c` first is in `s`, or its length when it is not there. */
  function PositionOf(s: string, c: char): (at: nat)
    ensures at <= |s|
  {
    if s == [] || s[0] == c then 0 else 1 + PositionOf(s[1..], c)
  }

  /** ASCII letters in upper case. */
  function Upper(s: string): string {
    seq(|s|, i requires 0 <= i < |s| => if 'a' <= s[i] <= 'z' then s[i] - 32 as char else s[i])
  }

  lemma {:induction false} Glue<T>(a: seq<T>, b: seq<T>, c: seq<T>)
    ensures a + b + c == a + (b + c)
  {
  }
}
