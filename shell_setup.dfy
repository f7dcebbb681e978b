/** The shell's command-line tokeniser `setup` (Project2/mainSetup.c): one
    read() of at most MAX_LINE bytes into the input buffer, then a single pass
    that NUL-terminates every word in place and records in `args` the offset
    at which each word starts, followed by a NULL entry. */
module ShellSetup {
  import opened Bytes

  /** The size of main's `args` array, MAX_LINE / 2 + 1 */
  const ARGS_SLOTS := MAX_LINE / 2 + 1

  /** An entry of `args`: NULL, or a pointer into the input buffer */
  datatype Arg = Null | At(offset: int)

  /** What read() delivered: some bytes (none at end of input), an
      interruption by a signal (EINTR), or another error */
  datatype ReadResult = Received(data: seq<byte>) | Interrupted | Failed

  /** Whether `setup` returned with a parsed line or ended the process */
  datatype SetupOutcome = Exit(code: int) | Parsed

  predicate IsSeparator(b: byte) { b == SPACE || b == TAB || b == NEWLINE }

  /** The tokeniser's state after a prefix of the line: `start` is the offset
      of the word being read, or -1, and `recorded` the offsets stored in
      `args` so far */
  datatype Scan = Scan(start: int, recorded: seq<int>)

  /** Closing the current word, if any, appends its offset */
  function Closed(st: Scan): seq<int>
  {
    if st.start != -1 then st.recorded + [st.start] else st.recorded
  }

  /** One step of the `switch` on byte `b` at offset `i`. A newline closes the
      current word like a blank; `reset` says whether it also forgets the
      word's start, which the program as written does not do. */
  function Step(st: Scan, i: int, b: byte, reset: bool): Scan
  {
    if b == SPACE || b == TAB then Scan(-1, Closed(st))
    else if b == NEWLINE then Scan(if reset then -1 else st.start, Closed(st))
    else Scan(if st.start == -1 then i else st.start, st.recorded)
  }

  /** A step only appends to the recorded offsets, one at most, and exactly
      when a separator ends an open word; a blank or tab always leaves no
      word open, a newline only with the reset */
  lemma StepRecords(st: Scan, i: int, b: byte, reset: bool)
    ensures var r := Step(st, i, b, reset);
      && st.recorded <= r.recorded && |r.recorded| <= |st.recorded| + 1
      && (|r.recorded| == |st.recorded| + 1 <==> IsSeparator(b) && st.start != -1)
      && (IsSeparator(b) && (reset || b != NEWLINE) ==> r.start == -1)
  {
  }

  /** The state after scanning all of `s` */
  function ScanOf(s: seq<byte>, reset: bool): Scan
  {
    if s == [] then Scan(-1, [])
    else Step(ScanOf(s[..|s| - 1], reset), |s| - 1, s[|s| - 1], reset)
  }

  /** The word offsets `setup` as written stores in `args` for the line `s` */
  function Tokens(s: seq<byte>): seq<int> { ScanOf(s, false).recorded }

  /** The word offsets when a newline also resets the word start */
  function TokensResetting(s: seq<byte>): seq<int> { ScanOf(s, true).recorded }

  /** `args` entries pointing at the given offsets */
  function ArgsOf(t: seq<int>): (r: seq<Arg>)
    ensures |r| == |t| && forall i :: 0 <= i < |t| ==> r[i] == At(t[i])
  {
    seq(|t|, i requires 0 <= i < |t| => At(t[i]))
  }

  /** Byte `j` of the line's first `n` bytes after the pass over them: blanks,
      tabs and newlines become NUL, and so does the byte before an '&' */
  function ClearedAt(s: seq<byte>, n: int, j: int): (r: byte)
    requires 0 <= j < |s| && n <= |s|
    ensures r == NUL || r == s[j]
    ensures !IsSeparator(r)
  {
    if IsSeparator(s[j]) || (j + 1 < n && s[j + 1] == AMPERSAND) then NUL else s[j]
  }

  /** The input buffer after the whole pass */
  function Cleared(s: seq<byte>): (r: seq<byte>)
    ensures |r| == |s|
  {
    seq(|s|, j requires 0 <= j < |s| => ClearedAt(s, |s|, j))
  }

  // ---------------------------------------------------------------------
  // What the tokeniser computes

  /** A word starts at `k`: a byte that is not a separator, first on the
      line or right after a separator */
  predicate IsWordStart(s: seq<byte>, k: int)
  {
    0 <= k < |s| && !IsSeparator(s[k]) && (k == 0 || IsSeparator(s[k - 1]))
  }

  /** A word starts at `k` and a separator follows it somewhere on the line */
  predicate ClosedWordAt(s: seq<byte>, k: int)
  {
    IsWordStart(s, k) && exists j :: k < j < |s| && IsSeparator(s[j])
  }

  predicate StrictlyIncreasing(t: seq<int>)
  {
    forall i, j :: 0 <= i < j < |t| ==> t[i] < t[j]
  }

  /** Whichever way a newline is treated, the open word and every offset
      the scan records start a word of the line, and the scan is idle only
      at the start or after a separator; at most one offset is recorded per
      byte */
  lemma {:induction false} ScanRecordsWordStarts(s: seq<byte>, reset: bool)
    ensures var st := ScanOf(s, reset);
      && |st.recorded| <= |s|
      && (st.start == -1 ==> s == [] || IsSeparator(s[|s| - 1]))
      && (st.start != -1 ==> IsWordStart(s, st.start))
      && forall i :: 0 <= i < |st.recorded| ==> IsWordStart(s, st.recorded[i])
  {
    if s != [] {
      var p := s[..|s| - 1];
      ScanRecordsWordStarts(p, reset);
      assert forall k :: IsWordStart(p, k) ==> IsWordStart(s, k);
    }
  }

  /** Every offset `args` receives, as written or with the reset, is the
      start of a word of the line */
  lemma TokensAreWordStarts(s: seq<byte>)
    ensures forall i :: 0 <= i < |Tokens(s)| ==> IsWordStart(s, Tokens(s)[i])
    ensures forall i :: 0 <= i < |TokensResetting(s)| ==> IsWordStart(s, TokensResetting(s)[i])
  {
    ScanRecordsWordStarts(s, false);
    ScanRecordsWordStarts(s, true);
  }

  /** After the pass no blank, tab or newline is left in the buffer, every
      byte is kept or cleared, and on a line without '&' or NUL exactly the
      separators are cleared */
  lemma ClearedBytes(s: seq<byte>)
    ensures forall j :: 0 <= j < |s| ==> (Cleared(s)[j] == NUL || Cleared(s)[j] == s[j]) && !IsSeparator(Cleared(s)[j])
    ensures AMPERSAND !in s && NUL !in s ==> forall j :: 0 <= j < |s| ==> (Cleared(s)[j] == NUL <==> IsSeparator(s[j]))
  {
  }

  /** The facts the resetting scan keeps after each prefix `s` */
  ghost predicate ResetShape(s: seq<byte>, st: Scan)
  {
    && (st.start == -1 <==> s == [] || IsSeparator(s[|s| - 1]))
    && (st.start != -1 ==> IsWordStart(s, st.start) && forall j :: st.start <= j < |s| ==> !IsSeparator(s[j]))
    && StrictlyIncreasing(st.recorded)
    && (forall i :: 0 <= i < |st.recorded| ==> 0 <= st.recorded[i] < |s|)
    && (st.start != -1 ==> forall i :: 0 <= i < |st.recorded| ==> st.recorded[i] < st.start)
    && (forall k :: k in st.recorded <==> ClosedWordAt(s, k))
    && 2 * |st.recorded| <= |s|
    && (st.start != -1 ==> 2 * |st.recorded| <= st.start)
  }

  /** Every word start on the line is closed, except the open word */
  lemma OpenWordIsTheOnlyUnclosed(s: seq<byte>, st: Scan, k: int)
    requires ResetShape(s, st) && IsWordStart(s, k)
    ensures ClosedWordAt(s, k) || k == st.start
  {
    if st.start == -1 {
      assert IsSeparator(s[|s| - 1]) && k < |s| - 1;
    } else if k < st.start {
      assert IsSeparator(s[st.start - 1]) && k < st.start - 1;
    }
  }

  lemma ResetShapeSeparator(s: seq<byte>, st: Scan, b: byte)
    requires ResetShape(s, st) && IsSeparator(b)
    ensures ResetShape(s + [b], Step(st, |s|, b, true))
  {
    var s' := s + [b];
    var st' := Step(st, |s|, b, true);
    assert st' == Scan(-1, Closed(st));
    forall k
      ensures k in st'.recorded <==> ClosedWordAt(s', k)
    {
      if ClosedWordAt(s', k) {
        assert k < |s| && IsWordStart(s, k);
        OpenWordIsTheOnlyUnclosed(s, st, k);
      }
      if k in st'.recorded && k !in st.recorded {
        assert k == st.start;
        assert s'[|s|] == b;
      }
      if k in st.recorded {
        var j :| k < j < |s| && IsSeparator(s[j]);
        assert s'[j] == s[j];
      }
    }
  }

  lemma ResetShapeWordByte(s: seq<byte>, st: Scan, b: byte)
    requires ResetShape(s, st) && !IsSeparator(b)
    ensures ResetShape(s + [b], Step(st, |s|, b, true))
  {
    var s' := s + [b];
    forall k
      ensures ClosedWordAt(s', k) <==> ClosedWordAt(s, k)
    {
      if ClosedWordAt(s', k) {
        var j :| k < j < |s'| && IsSeparator(s'[j]);
        assert j < |s| && s[j] == s'[j];
      }
      if ClosedWordAt(s, k) {
        var j :| k < j < |s| && IsSeparator(s[j]);
        assert s'[j] == s[j];
      }
    }
  }

  lemma {:induction false} ResettingScanShape(s: seq<byte>)
    ensures ResetShape(s, ScanOf(s, true))
  {
    if s != [] {
      var p, b := s[..|s| - 1], s[|s| - 1];
      var st := ScanOf(p, true);
      ResettingScanShape(p);
      assert ScanOf(s, true) == Step(st, |p|, b, true);
      if IsSeparator(b) {
        ResetShapeSeparator(p, st, b);
      } else {
        ResetShapeWordByte(p, st, b);
      }
      assert s == p + [b];
    }
  }

  /** With the reset, `args` receives exactly the starts of the words that a
      separator ends, in order */
  lemma TokensResettingAreClosedWords(s: seq<byte>)
    ensures StrictlyIncreasing(TokensResetting(s))
    ensures forall k :: k in TokensResetting(s) <==> ClosedWordAt(s, k)
  {
    ResettingScanShape(s);
  }

  /** With the reset, a line of n bytes yields at most n / 2 words, so a line
      of at most MAX_LINE bytes always fits in `args` with its NULL */
  lemma TokensResettingBound(s: seq<byte>)
    ensures 2 * |TokensResetting(s)| <= |s|
    ensures |s| <= MAX_LINE ==> |TokensResetting(s)| < ARGS_SLOTS
  {
    ResettingScanShape(s);
  }

  /** The first bytes of a line are scanned the same whatever follows */
  lemma {:induction false} ScanPrefix(s: seq<byte>, i: int, reset: bool)
    requires 0 <= i <= |s|
    ensures ScanOf(s[..i], reset).recorded <= ScanOf(s, reset).recorded
  {
    if i < |s| {
      var p := s[..|s| - 1];
      ScanPrefix(p, i, reset);
      assert p[..i] == s[..i];
    } else {
      assert s[..i] == s;
    }
  }

  /** On a line without a newline, resetting or not makes no difference */
  lemma {:induction false} AgreeWithoutNewline(s: seq<byte>)
    requires NEWLINE !in s
    ensures ScanOf(s, false) == ScanOf(s, true)
  {
    if s != [] {
      var p := s[..|s| - 1];
      assert forall j :: 0 <= j < |p| ==> p[j] == s[j];
      AgreeWithoutNewline(p);
    }
  }

  /** A single line, whose only newline is its last byte, is tokenised the
      same by the program as written and by the resetting scan, and so fits
      in `args` */
  lemma OneLineAgrees(s: seq<byte>)
    requires s != [] && NEWLINE !in s[..|s| - 1]
    ensures Tokens(s) == TokensResetting(s)
    ensures |s| <= MAX_LINE ==> |Tokens(s)| < ARGS_SLOTS
  {
    AgreeWithoutNewline(s[..|s| - 1]);
    TokensResettingBound(s);
  }

  /** A word followed by k newlines: the program as written records the
      word once per newline, the resetting scan once */
  function WordThenNewlines(k: nat): (s: seq<byte>)
    ensures |s| == k + 1
  {
    [LOWER_A] + seq(k, _ => NEWLINE)
  }

  lemma {:induction false} RepeatedNewlines(k: nat)
    ensures Tokens(WordThenNewlines(k)) == seq(k, _ => 0)
    ensures TokensResetting(WordThenNewlines(k)) == if k == 0 then [] else [0]
    ensures ScanOf(WordThenNewlines(k), false).start == 0
  {
    if k > 0 {
      RepeatedNewlines(k - 1);
      assert WordThenNewlines(k)[..k] == WordThenNewlines(k - 1);
      assert seq(k - 1, _ => 0) + [0] == seq(k, _ => 0);
    } else {
      assert WordThenNewlines(0)[..0] == [];
    }
  }

  /** One read of MAX_LINE bytes, a word and 79 newlines, makes the program
      as written store 79 offsets in an `args` array of ARGS_SLOTS entries */
  lemma NewlinesOverflowArgs()
    ensures |WordThenNewlines(MAX_LINE - 1)| == MAX_LINE
    ensures |Tokens(WordThenNewlines(MAX_LINE - 1))| == MAX_LINE - 1 > ARGS_SLOTS
    ensures |TokensResetting(WordThenNewlines(MAX_LINE - 1))| == 1
  {
    RepeatedNewlines(MAX_LINE - 1);
  }

  /** Two lines in one read, "a\nb\n": the program as written passes "a"
      twice and loses "b"; the resetting scan passes both words */
  lemma SecondLineLost()
    ensures Tokens([LOWER_A, NEWLINE, LOWER_A + 1, NEWLINE]) == [0, 0]
    ensures TokensResetting([LOWER_A, NEWLINE, LOWER_A + 1, NEWLINE]) == [0, 2]
  {
    var s: seq<byte> := [LOWER_A, NEWLINE, LOWER_A + 1, NEWLINE];
    assert s[..1][..0] == [] && s[..2][..1] == s[..1] && s[..3][..2] == s[..2] && s[..3] == s[..|s| - 1];
    assert ScanOf(s[..1], false) == Scan(0, []) == ScanOf(s[..1], true);
    assert ScanOf(s[..2], false) == Scan(0, [0]);
    assert ScanOf(s[..3], false) == Scan(0, [0]);
    assert ScanOf(s, false) == Scan(0, [0, 0]);
    assert ScanOf(s[..2], true) == Scan(-1, [0]);
    assert ScanOf(s[..3], true) == Scan(2, [0]);
    assert ScanOf(s, true) == Scan(-1, [0, 2]);
  }

  // ---------------------------------------------------------------------
  // The words the arguments point at

  /** The end of the run of non-separators starting at `k` */
  function RunEnd(s: seq<byte>, k: int): (e: int)
    requires 0 <= k <= |s|
    ensures k <= e <= |s|
    ensures forall j :: k <= j < e ==> !IsSeparator(s[j])
    ensures e < |s| ==> IsSeparator(s[e])
    decreases |s| - k
  {
    if k == |s| || IsSeparator(s[k]) then k else RunEnd(s, k + 1)
  }

  /** Once the pass is over, an argument starting at a closed word reads as
      that word, when the line holds no '&' and no NUL */
  lemma ArgIsWord(s: seq<byte>, k: int)
    requires ClosedWordAt(s, k) && AMPERSAND !in s && NUL !in s
    ensures CStr(Cleared(s)[k..]) == s[k..RunEnd(s, k)]
  {
    var e := RunEnd(s, k);
    var j :| k < j < |s| && IsSeparator(s[j]);
    assert e <= j;
    var c := Cleared(s);
    forall p | k <= p < e
      ensures c[p] == s[p]
    {
      assert !IsSeparator(s[p]);
      assert p + 1 < |s| ==> s[p + 1] != AMPERSAND;
    }
    assert c[k..e] == s[k..e];
    assert c[e] == NUL;
    assert c[k..] == s[k..e] + [NUL] + c[e + 1..];
    CStrOfTerminated(s[k..e], c[e + 1..]);
  }

  /** With the reset, every argument of a line without '&' or NUL is one of
      its blank-separated words */
  lemma ArgsAreWords(s: seq<byte>)
    requires AMPERSAND !in s && NUL !in s
    ensures forall i :: 0 <= i < |TokensResetting(s)| ==>
      var k := TokensResetting(s)[i]; ClosedWordAt(s, k) && CStr(Cleared(s)[k..]) == s[k..RunEnd(s, k)]
  {
    TokensResettingAreClosedWords(s);
    forall i | 0 <= i < |TokensResetting(s)|
      ensures var k := TokensResetting(s)[i]; ClosedWordAt(s, k) && CStr(Cleared(s)[k..]) == s[k..RunEnd(s, k)]
    {
      ArgIsWord(s, TokensResetting(s)[i]);
    }
  }

  // ---------------------------------------------------------------------
  // The pass over the buffer

  /** How far the pass has got: the first `i` bytes of `data` are scanned,
      `start` and `ct` are the tokeniser's variables, `args` holds the offsets
      recorded so far, and the buffer is cleared up to `i` */
  ghost predicate Progress(data: seq<byte>, inputBuffer: array<byte>, args: array<Arg>, reset: bool,
                           i: int, start: int, ct: int)
    reads inputBuffer, args
  {
    && 0 <= i <= |data| <= inputBuffer.Length
    && ScanOf(data[..i], reset).start == start
    && ct == |ScanOf(data[..i], reset).recorded| <= |ScanOf(data, reset).recorded| < args.Length
    && args[..ct] == ArgsOf(ScanOf(data[..i], reset).recorded)
    && (forall j :: 0 <= j < i ==> inputBuffer[j] == ClearedAt(data, i, j))
    && (forall j :: i <= j < |data| ==> inputBuffer[j] == data[j])
  }

  /** One turn of the loop has moved `Progress` from `i` to `i + 1`, leaving
      the entries of `args` past the new count and the buffer past the line
      as they were (`args0`, `buf0`) */
  ghost predicate Advanced(data: seq<byte>, inputBuffer: array<byte>, args: array<Arg>, reset: bool,
                           i: int, ct: int, start': int, ct': int, args0: seq<Arg>, buf0: seq<byte>)
    reads inputBuffer, args
  {
    && Progress(data, inputBuffer, args, reset, i + 1, start', ct') && ct <= ct'
    && |args0| == args.Length && (forall j :: ct' < j < args.Length ==> args[j] == args0[j])
    && |buf0| == inputBuffer.Length && (forall j :: |data| <= j < inputBuffer.Length ==> inputBuffer[j] == buf0[j])
  }

  /** One turn of the `for` loop: the `switch` on `inputBuffer[i]` */
  method ParseByte(data: seq<byte>, inputBuffer: array<byte>, args: array<Arg>, reset: bool,
                   i: int, start: int, ct: int)
    returns (start': int, ct': int, ampersand: bool)
    requires Progress(data, inputBuffer, args, reset, i, start, ct) && i < |data|
    requires data[0] != AMPERSAND
    modifies inputBuffer, args
    ensures Advanced(data, inputBuffer, args, reset, i, ct, start', ct', old(args[..]), old(inputBuffer[..]))
    ensures ampersand <==> data[i] == AMPERSAND
  {
    var b := inputBuffer[i];
    ampersand := false;
    if b == SPACE || b == TAB {
      start', ct' := Blank(data, inputBuffer, args, reset, i, start, ct);
    } else if b == NEWLINE {
      start', ct' := Newline(data, inputBuffer, args, reset, i, start, ct);
    } else {
      start', ampersand := WordByte(data, inputBuffer, args, reset, i, start, ct);
      ct' := ct;
    }
  }

  /** The facts every arm of the `switch` starts from */
  lemma ScanNext(data: seq<byte>, i: int, reset: bool)
    requires 0 <= i < |data|
    ensures ScanOf(data[..i + 1], reset) == Step(ScanOf(data[..i], reset), i, data[i], reset)
    ensures ScanOf(data[..i + 1], reset).recorded <= ScanOf(data, reset).recorded
  {
    assert data[..i + 1][..i] == data[..i];
    ScanPrefix(data, i + 1, reset);
  }

  /** `case ' ': case '\t':` ends the current word, if any */
  method Blank(data: seq<byte>, inputBuffer: array<byte>, args: array<Arg>, reset: bool,
               i: int, start: int, ct: int)
    returns (start': int, ct': int)
    requires Progress(data, inputBuffer, args, reset, i, start, ct) && i < |data|
    requires data[i] == SPACE || data[i] == TAB
    modifies inputBuffer, args
    ensures Advanced(data, inputBuffer, args, reset, i, ct, start', ct', old(args[..]), old(inputBuffer[..]))
  {
    ScanNext(data, i, reset);
    ct' := ct;
    if start != -1 {
      args[ct] := At(start);
      ct' := ct + 1;
    }
    inputBuffer[i] := NUL;
    start' := -1;
  }

  /** `case '\n':` ends the current word, if any, and marks the end of the
      arguments; only with `reset` does it forget the word's start */
  method Newline(data: seq<byte>, inputBuffer: array<byte>, args: array<Arg>, reset: bool,
                 i: int, start: int, ct: int)
    returns (start': int, ct': int)
    requires Progress(data, inputBuffer, args, reset, i, start, ct) && i < |data|
    requires data[i] == NEWLINE
    modifies inputBuffer, args
    ensures Advanced(data, inputBuffer, args, reset, i, ct, start', ct', old(args[..]), old(inputBuffer[..]))
  {
    ScanNext(data, i, reset);
    start', ct' := start, ct;
    if start != -1 {
      args[ct] := At(start);
      ct' := ct + 1;
    }
    inputBuffer[i] := NUL;
    args[ct'] := Null;
    if reset {
      start' := -1;
    }
  }

  /** `default:` a byte of a word; an '&' also clears the byte before it */
  method WordByte(data: seq<byte>, inputBuffer: array<byte>, args: array<Arg>, reset: bool,
                  i: int, start: int, ct: int)
    returns (start': int, ampersand: bool)
    requires Progress(data, inputBuffer, args, reset, i, start, ct) && i < |data|
    requires !IsSeparator(data[i]) && data[0] != AMPERSAND
    modifies inputBuffer, args
    ensures Advanced(data, inputBuffer, args, reset, i, ct, start', ct, old(args[..]), old(inputBuffer[..]))
    ensures ampersand <==> data[i] == AMPERSAND
  {
    ScanNext(data, i, reset);
    start', ampersand := start, false;
    if start == -1 {
      start' := i;
    }
    if inputBuffer[i] == AMPERSAND {
      ampersand := true;
      inputBuffer[i - 1] := NUL;
    }
  }

  /** The `for` loop of setup over the `data` just read into `inputBuffer`,
      then the closing `args[ct] = NULL`; `reset` selects whether a newline
      forgets the word start. An '&' at offset 0 would clear the byte before
      the buffer, and more words than `args` holds would write past it. */
  method ParseLine(data: seq<byte>, inputBuffer: array<byte>, args: array<Arg>, reset: bool)
    returns (ampersand: bool)
    requires |data| <= inputBuffer.Length
    requires inputBuffer[..|data|] == data
    requires data != [] ==> data[0] != AMPERSAND
    requires |ScanOf(data, reset).recorded| < args.Length
    modifies inputBuffer, args
    ensures inputBuffer[..|data|] == Cleared(data)
    ensures inputBuffer[|data|..] == old(inputBuffer[|data|..])
    ensures var t := ScanOf(data, reset).recorded;
      args[..|t| + 1] == ArgsOf(t) + [Null] && args[|t| + 1..] == old(args[|t| + 1..])
    ensures ampersand <==> AMPERSAND in data
  {
    var ct;
    ct, ampersand := ScanBytes(data, inputBuffer, args, reset);
    args[ct] := Null;
  }

  /** The loop of ParseLine: every byte of the line scanned, with `ct` words
      recorded and nothing else of the two arrays touched */
  method ScanBytes(data: seq<byte>, inputBuffer: array<byte>, args: array<Arg>, reset: bool)
    returns (ct: int, ampersand: bool)
    requires |data| <= inputBuffer.Length
    requires inputBuffer[..|data|] == data
    requires data != [] ==> data[0] != AMPERSAND
    requires |ScanOf(data, reset).recorded| < args.Length
    modifies inputBuffer, args
    ensures ct == |ScanOf(data, reset).recorded| < args.Length
    ensures inputBuffer[..|data|] == Cleared(data)
    ensures inputBuffer[|data|..] == old(inputBuffer[|data|..])
    ensures args[..ct] == ArgsOf(ScanOf(data, reset).recorded) && args[ct + 1..] == old(args[ct + 1..])
    ensures ampersand <==> AMPERSAND in data
  {
    var start, i := -1, 0;
    ct, ampersand := 0, false;
    assert data[..0] == [];
    while i < |data|
      invariant Progress(data, inputBuffer, args, reset, i, start, ct)
      invariant forall j :: ct < j < args.Length ==> args[j] == old(args[j])
      invariant forall j :: |data| <= j < inputBuffer.Length ==> inputBuffer[j] == old(inputBuffer[j])
      invariant ampersand <==> AMPERSAND in data[..i]
    {
      var amp;
      start, ct, amp := ParseByte(data, inputBuffer, args, reset, i, start, ct);
      assert data[..i + 1] == data[..i] + [data[i]];
      ampersand := ampersand || amp;
      i := i + 1;
    }
    assert data[..i] == data;
  }

  /** The bytes read() delivered land at the front of the buffer and are
      tokenised there */
  method ReceiveLine(data: seq<byte>, inputBuffer: array<byte>, args: array<Arg>, reset: bool)
    returns (ampersand: bool)
    requires |data| <= inputBuffer.Length
    requires data != [] ==> data[0] != AMPERSAND
    requires |ScanOf(data, reset).recorded| < args.Length
    modifies inputBuffer, args
    ensures inputBuffer[..|data|] == Cleared(data)
    ensures inputBuffer[|data|..] == old(inputBuffer[|data|..])
    ensures var t := ScanOf(data, reset).recorded;
      args[..|t| + 1] == ArgsOf(t) + [Null] && args[|t| + 1..] == old(args[|t| + 1..])
    ensures ampersand <==> AMPERSAND in data
  {
    forall j | 0 <= j < |data| {
      inputBuffer[j] := data[j];
    }
    assert inputBuffer[..|data|] == data;
    assert inputBuffer[|data|..] == old(inputBuffer[|data|..]);
    ampersand := ParseLine(data, inputBuffer, args, reset);
  }

  /** setup as written: read() is the `input` parameter. End of input exits
      with status 0 and a read error other than EINTR with -1; an interrupted
      read leaves an empty argument list; otherwise the line is tokenised */
  method Setup(input: ReadResult, inputBuffer: array<byte>, args: array<Arg>, background: bool)
    returns (outcome: SetupOutcome, bg: bool)
    requires inputBuffer.Length == MAX_LINE && args.Length == ARGS_SLOTS
    requires input.Received? ==> |input.data| <= MAX_LINE
    requires input.Received? && input.data != [] ==> input.data[0] != AMPERSAND
    requires input.Received? ==> |Tokens(input.data)| < ARGS_SLOTS
    modifies inputBuffer, args
    ensures input == Received([]) ==> outcome == Exit(0) && unchanged(inputBuffer, args)
    ensures input.Failed? ==> outcome == Exit(-1) && unchanged(inputBuffer, args)
    ensures input.Interrupted? ==> && outcome == Parsed && bg == background && unchanged(inputBuffer)
                                   && args[0] == Null && args[1..] == old(args[1..])
    ensures input.Received? && input.data != [] ==>
      var data, t := input.data, Tokens(input.data);
      && outcome == Parsed
      && inputBuffer[..|data|] == Cleared(data) && inputBuffer[|data|..] == old(inputBuffer[|data|..])
      && args[..|t| + 1] == ArgsOf(t) + [Null] && args[|t| + 1..] == old(args[|t| + 1..])
      && (bg <==> background || AMPERSAND in data)
  {
    bg := background;
    match input
    case Received(data) =>
      if |data| == 0 {
        return Exit(0), bg;
      }
      var ampersand := ReceiveLine(data, inputBuffer, args, false);
      bg := bg || ampersand;
      return Parsed, bg;
    case Failed =>
      return Exit(-1), bg;
    case Interrupted =>
      args[0] := Null;
      return Parsed, bg;
  }

  /** setup with the newline also resetting the word start: every line of at
      most MAX_LINE bytes fits in `args`, so no bound on the words is needed */
  method SetupResettingOnNewline(input: ReadResult, inputBuffer: array<byte>, args: array<Arg>, background: bool)
    returns (outcome: SetupOutcome, bg: bool)
    requires inputBuffer.Length == MAX_LINE && args.Length == ARGS_SLOTS
    requires input.Received? ==> |input.data| <= MAX_LINE
    requires input.Received? && input.data != [] ==> input.data[0] != AMPERSAND
    modifies inputBuffer, args
    ensures input == Received([]) ==> outcome == Exit(0) && unchanged(inputBuffer, args)
    ensures input.Failed? ==> outcome == Exit(-1) && unchanged(inputBuffer, args)
    ensures input.Interrupted? ==> && outcome == Parsed && bg == background && unchanged(inputBuffer)
                                   && args[0] == Null && args[1..] == old(args[1..])
    ensures input.Received? && input.data != [] ==>
      var data, t := input.data, TokensResetting(input.data);
      && outcome == Parsed && |t| < ARGS_SLOTS
      && inputBuffer[..|data|] == Cleared(data) && inputBuffer[|data|..] == old(inputBuffer[|data|..])
      && args[..|t| + 1] == ArgsOf(t) + [Null] && args[|t| + 1..] == old(args[|t| + 1..])
      && (bg <==> background || AMPERSAND in data)
  {
    bg := background;
    match input
    case Received(data) =>
      if |data| == 0 {
        return Exit(0), bg;
      }
      TokensResettingBound(data);
      var ampersand := ReceiveLine(data, inputBuffer, args, true);
      bg := bg || ampersand;
      return Parsed, bg;
    case Failed =>
      return Exit(-1), bg;
    case Interrupted =>
      args[0] := Null;
      return Parsed, bg;
  }
}
