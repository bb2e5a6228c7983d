/** What the other modules share: Option, three-valued logic, concatenation, upper case. */
module Wrappers {

  datatype Option<+T> = None | Some(value: T)

  /** Three-valued logic of SQL: a predicate on a row is true, false or unknown. */
  datatype Tri = True | False | Unknown {
    function Not(): Tri {
      match this
      case True => False
      case False => True
      case Unknown => Unknown
    }

    function And(other: Tri): Tri {
      if this == False || other == False then False
      else if this == True && other == True then True
      else Unknown
    }

    function Or(other: Tri): Tri {
      if this == True || other == True then True
      else if this == False && other == False then False
      else Unknown
    }

    static function Of(b: bool): Tri {
      if b then True else False
    }
  }

  /** The sequences one after the other. */
  function Concat<T>(xs: seq<seq<T>>): seq<T> {
    if xs == [] then [] else xs[0] + Concat(xs[1..])
  }

  lemma {:induction false} ConcatSnoc<T>(xs: seq<seq<T>>, x: seq<T>)
    ensures Concat(xs + [x]) == Concat(xs) + x
  {
    if xs == [] {
      assert xs + [x] == [x] && [x][1..] == [];
      assert Concat([x]) == x + Concat([x][1..]);
    } else {
      assert (xs + [x])[1..] == xs[1..] + [x];
      ConcatSnoc(xs[1..], x);
    }
  }

  /** Upper case of an ASCII letter, as std::toupper in the C locale. */
  function UpperChar(c: char): char {
    if 'a' <= c <= 'z' then (c as int - 32) as char else c
  }
}
