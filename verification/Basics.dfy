/** Small definitions the whole project shares. */
module Basics {

  /** A value that may be missing: a null, an absent key, or the place of a raised exception. */
  datatype Option<T> = None | Some(value: T) {
    function GetOr(default: T): T { if Some? then value else default }
  }

  function MaxReal(a: real, b: real): real { if a >= b then a else b }

  function MinReal(a: real, b: real): real { if a <= b then a else b }

  /** A lower-case ASCII letter or a digit. */
  predicate IsAlnum(c: char) { 'a' <= c <= 'z' || '0' <= c <= '9' }

  lemma AlnumCharacters(c: char)
    ensures IsAlnum(c) <==>
              c in {'a', 'b', 'c', 'd', 'e', 'f', 'g', 'h', 'i', 'j', 'k', 'l', 'm',
                    'n', 'o', 'p', 'q', 'r', 's', 't', 'u', 'v', 'w', 'x', 'y', 'z'} ||
              c in {'0', '1', '2', '3', '4', '5', '6', '7', '8', '9'}
  {
  }
}
