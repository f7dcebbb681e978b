/** The two per-line byte maps of the text pipeline (Project3/project3.c):
    ASCII lower case to upper case, and space to underscore, with the
    algebra that makes the pipeline's result independent of the order in
    which its concurrently started upper and replace threads run. */
module LineTransforms {
  import opened Bytes

  predicate IsLower(b: byte) { LOWER_A <= b <= LOWER_Z }

  /** The body of the upper thread's loop for one byte */
  function UpperByte(b: byte): byte { if IsLower(b) then b - CASE_OFFSET else b }

  /** The body of the replace thread's loop for one byte */
  function UnderscoreByte(b: byte): byte { if b == SPACE then UNDERSCORE else b }

  /** Applies `f` to every byte of `s`, keeping positions */
  function MapBytes(f: byte -> byte, s: seq<byte>): (r: seq<byte>)
    ensures |r| == |s|
    ensures forall i :: 0 <= i < |s| ==> r[i] == f(s[i])
  {
    if s == [] then [] else MapBytes(f, s[..|s| - 1]) + [f(s[|s| - 1])]
  }

  /** A line after the upper thread */
  function Uppercased(s: seq<byte>): (r: seq<byte>)
    ensures |r| == |s|
    ensures forall i :: 0 <= i < |s| && IsLower(s[i]) ==> r[i] == s[i] - CASE_OFFSET
    ensures forall i :: 0 <= i < |s| && !IsLower(s[i]) ==> r[i] == s[i]
  {
    MapBytes(UpperByte, s)
  }

  /** A line after the replace thread */
  function Underscored(s: seq<byte>): (r: seq<byte>)
    ensures |r| == |s|
    ensures forall i :: 0 <= i < |s| && s[i] == SPACE ==> r[i] == UNDERSCORE
    ensures forall i :: 0 <= i < |s| && s[i] != SPACE ==> r[i] == s[i]
  {
    MapBytes(UnderscoreByte, s)
  }

  lemma UppercasedIdempotent(s: seq<byte>)
    ensures Uppercased(Uppercased(s)) == Uppercased(s)
  {
  }

  lemma UppercasedHasNoLower(s: seq<byte>)
    ensures forall i :: 0 <= i < |s| ==> !IsLower(Uppercased(s)[i])
  {
  }

  lemma UnderscoredIdempotent(s: seq<byte>)
    ensures Underscored(Underscored(s)) == Underscored(s)
  {
  }

  lemma UnderscoredHasNoSpace(s: seq<byte>)
    ensures SPACE !in Underscored(s)
  {
  }

  /** Neither map creates or removes a NUL, so a C string stays the same length */
  lemma TransformsKeepCString(s: seq<byte>)
    ensures NUL in s <==> NUL in Uppercased(s)
    ensures NUL in s <==> NUL in Underscored(s)
  {
  }

  /** The two maps commute, so upper-then-replace and replace-then-upper agree */
  lemma TransformsCommute(s: seq<byte>)
    ensures Uppercased(Underscored(s)) == Underscored(Uppercased(s))
  {
  }

  /** The content of a line after the upper step (if `upper`) and the replace
      step (if `replace`) have run on it, in either order */
  function Transformed(s: seq<byte>, upper: bool, replace: bool): seq<byte>
  {
    var u := if upper then Uppercased(s) else s;
    if replace then Underscored(u) else u
  }

  /** Running the upper step on a line that already went through any of the
      steps gives the line with the upper step recorded as done */
  lemma UpperAfterTransformed(s: seq<byte>, upper: bool, replace: bool)
    ensures Uppercased(Transformed(s, upper, replace)) == Transformed(s, true, replace)
  {
    var u := if upper then Uppercased(s) else s;
    UppercasedIdempotent(s);
    assert Uppercased(u) == Uppercased(s);
    if replace {
      TransformsCommute(u);
    }
  }

  lemma ReplaceAfterTransformed(s: seq<byte>, upper: bool, replace: bool)
    ensures Underscored(Transformed(s, upper, replace)) == Transformed(s, upper, true)
  {
    var u := if upper then Uppercased(s) else s;
    if replace {
      UnderscoredIdempotent(u);
    }
  }
}
