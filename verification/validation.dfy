/**
 * `ValidationRules` of the `core` crate: inclusive bounds on the byte length
 * (the UTF-8 length Rust's `str::len` reports) of a username and a password.
 */
module Validation {

  /** Bytes one character takes in UTF-8. */
  function Utf8Width(c: char): (w: nat)
    ensures 1 <= w <= 4
    ensures w == 1 <==> (c as int) < 0x80
  {
    if (c as int) < 0x80 then 1
    else if (c as int) < 0x800 then 2
    else if (c as int) < 0x10000 then 3
    else 4
  }

  /** `str::len`: the length in bytes of the UTF-8 encoding of `s`. */
  function Utf8Len(s: string): (n: nat)
    ensures |s| <= n <= 4 * |s|
    ensures n == 0 <==> s == []
  {
    if s == [] then 0 else Utf8Width(s[0]) + Utf8Len(s[1..])
  }

  /** For ASCII text the byte length is the number of characters. */
  lemma {:induction false} Utf8LenAscii(s: string)
    requires forall i :: 0 <= i < |s| ==> (s[i] as int) < 0x80
    ensures Utf8Len(s) == |s|
  {
    if s != [] {
      Utf8LenAscii(s[1..]);
    }
  }

  /** A character outside ASCII makes the byte length exceed the character count. */
  lemma {:induction false} Utf8LenNonAscii(s: string, k: nat)
    requires k < |s| && (s[k] as int) >= 0x80
    ensures Utf8Len(s) > |s|
  {
    if k > 0 {
      Utf8LenNonAscii(s[1..], k - 1);
    }
  }

  datatype Validated = Valid | InvalidPass | InvalidName

  /** Four inclusive bounds, in bytes. */
  datatype ValidationRules = ValidationRules(nameMin: nat, nameMax: nat, passMin: nat, passMax: nat)
  {
    predicate NameInBounds(name: string)
    {
      nameMin <= Utf8Len(name) <= nameMax
    }

    predicate PassInBounds(pass: string)
    {
      passMin <= Utf8Len(pass) <= passMax
    }

    /** The name is checked first; the password only when the name is in bounds. */
    function Validate(name: string, pass: string): (v: Validated)
      ensures v == InvalidName <==> !NameInBounds(name)
      ensures v == InvalidPass <==> NameInBounds(name) && !PassInBounds(pass)
      ensures v == Valid <==> NameInBounds(name) && PassInBounds(pass)
    {
      if Utf8Len(name) < nameMin || Utf8Len(name) > nameMax then
        InvalidName
      else if Utf8Len(pass) < passMin || Utf8Len(pass) > passMax then
        InvalidPass
      else
        Valid
    }

    function IsValid(name: string, pass: string): (b: bool)
      ensures b <==> NameInBounds(name) && PassInBounds(pass)
    {
      Validate(name, pass) == Valid
    }
  }
}
