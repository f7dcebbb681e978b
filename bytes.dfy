/** Bytes of C `char` buffers, the ASCII codes the two programs test for,
    and the view of a NUL-terminated buffer as a C string. */
module Bytes {

  newtype byte = b: int | 0 <= b < 256

  const NUL: byte := 0
  const TAB: byte := 9          // '\t'
  const NEWLINE: byte := 10     // '\n'
  const SPACE: byte := 32       // ' '
  const AMPERSAND: byte := 38   // '&'
  const UNDERSCORE: byte := 95  // '_'
  const LOWER_A: byte := 97     // 'a'
  const LOWER_Z: byte := 122    // 'z'
  /** Distance between an ASCII lower-case letter and its upper-case form */
  const CASE_OFFSET: byte := 32

  /** The shell's MAX_LINE: the size of its input buffer and of a history slot */
  const MAX_LINE := 80

  function Min(a: int, b: int): int { if a <= b then a else b }

  /** strlen: the index of the first NUL of `s`, or |s| when there is none */
  function CStrLen(s: seq<byte>): (n: nat)
    ensures n <= |s|
    ensures forall j :: 0 <= j < n ==> s[j] != NUL
    ensures n < |s| ==> s[n] == NUL
  {
    if s == [] || s[0] == NUL then 0 else 1 + CStrLen(s[1..])
  }

  /** The C string held at the front of `s`: the bytes before its first NUL */
  function CStr(s: seq<byte>): (r: seq<byte>)
    ensures r <= s && NUL !in r
    ensures |r| < |s| ==> s[|r|] == NUL
  {
    s[..CStrLen(s)]
  }

  /** A C string followed by its terminator reads back as itself, whatever follows */
  lemma CStrOfTerminated(t: seq<byte>, rest: seq<byte>)
    requires NUL !in t
    ensures CStr(t + [NUL] + rest) == t
  {
    var s := t + [NUL] + rest;
    assert s[|t|] == NUL;
    assert forall j :: 0 <= j < |t| ==> s[j] == t[j];
    assert CStrLen(s) == |t|;
  }
}
