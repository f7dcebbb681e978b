/** The line pipeline of Project3/project3.c, run sequentially: read threads
    fill the global `lines[100][1000]` store, upper and replace threads
    rewrite one line each in place, and the single write thread emits the
    first `totalLines` lines. */
module LinePipeline {
  import opened Bytes
  import opened LineTransforms

  const MAX_LINES := 100
  const MAX_LINE_LENGTH := 1000

  /** The input file as the successive pieces `fgets(buf, MAX_LINE_LENGTH, f)`
      returns: each is 1 to 999 bytes long; for a file whose lines are
      shorter than 999 bytes these are its lines, each with its newline. */
  predicate IsChunked(file: seq<seq<byte>>)
  {
    forall j :: 0 <= j < |file| ==> 0 < |file[j]| < MAX_LINE_LENGTH
  }

  /** strcspn(s, "\n") on a C string: the number of bytes before the first
      newline or NUL */
  function NewlineSpan(s: seq<byte>): (n: nat)
    ensures n <= |s|
    ensures forall j :: 0 <= j < n ==> s[j] != NUL && s[j] != NEWLINE
    ensures n < |s| ==> s[n] == NUL || s[n] == NEWLINE
  {
    if s == [] || s[0] == NUL || s[0] == NEWLINE then 0 else 1 + NewlineSpan(s[1..])
  }

  /** The line a read thread keeps of the chunk it fetched: the chunk's C
      string cut at its first newline */
  function Stripped(chunk: seq<byte>): (r: seq<byte>)
    ensures r <= chunk && NUL !in r && NEWLINE !in r
    ensures |r| < |chunk| ==> chunk[|r|] == NUL || chunk[|r|] == NEWLINE
  {
    chunk[..NewlineSpan(chunk)]
  }

  lemma NewlineSpanOfTerminated(c: seq<byte>, rest: seq<byte>)
    ensures NewlineSpan(c + [NUL] + rest) == NewlineSpan(c)
  {
    var s := c + [NUL] + rest;
    var n := NewlineSpan(c);
    assert forall j :: 0 <= j < |c| ==> s[j] == c[j];
    assert n < |c| ==> s[n] == c[n];
    assert s[|c|] == NUL;
    var m := NewlineSpan(s);
    assert m <= n;
    assert n <= m;
  }

  /** The bytes of row `k` of a two-dimensional buffer */
  function RowOf(a: array2<byte>, k: int): (r: seq<byte>)
    reads a
    requires 0 <= k < a.Length0
    ensures |r| == a.Length1
    ensures forall j :: 0 <= j < a.Length1 ==> r[j] == a[k, j]
  {
    seq(a.Length1, j requires 0 <= j < a.Length1 reads a => a[k, j])
  }

  /** The text a write stage emits for `ls`: each line followed by a newline */
  function Joined(ls: seq<seq<byte>>): seq<byte>
  {
    if ls == [] then [] else ls[0] + [NEWLINE] + Joined(ls[1..])
  }

  /** The text is empty exactly when no line is written, and otherwise ends
      with a newline; it has at least one byte per line */
  lemma {:induction false} JoinedShape(ls: seq<seq<byte>>)
    ensures var r := Joined(ls);
      && (r == [] <==> ls == [])
      && (r != [] ==> r[|r| - 1] == NEWLINE)
      && |r| >= |ls|
  {
    if ls != [] {
      JoinedShape(ls[1..]);
    }
  }

  /** Writing fewer lines writes a prefix of the text */
  lemma {:induction false} JoinedPrefix(ls: seq<seq<byte>>, n: nat)
    requires n <= |ls|
    ensures Joined(ls[..n]) <= Joined(ls)
  {
    if n > 0 {
      assert ls[..n][1..] == ls[1..][..n - 1];
      JoinedPrefix(ls[1..], n - 1);
    }
  }

  lemma {:induction false} JoinedSnoc(ls: seq<seq<byte>>, l: seq<byte>)
    ensures Joined(ls + [l]) == Joined(ls) + l + [NEWLINE]
  {
    if ls == [] {
      assert ls + [l] == [l];
    } else {
      assert (ls + [l])[1..] == ls[1..] + [l];
      JoinedSnoc(ls[1..], l);
    }
  }

  /** The first newline of `s`, or |s| */
  function NewlineIndex(s: seq<byte>): (n: nat)
    ensures n <= |s|
    ensures forall j :: 0 <= j < n ==> s[j] != NEWLINE
    ensures n < |s| ==> s[n] == NEWLINE
  {
    if s == [] || s[0] == NEWLINE then 0 else 1 + NewlineIndex(s[1..])
  }

  /** Reads newline-terminated text back as its lines */
  function SplitLines(s: seq<byte>): seq<seq<byte>>
    decreases |s|
  {
    if s == [] then []
    else
      var n := NewlineIndex(s);
      if n == |s| then [s] else [s[..n]] + SplitLines(s[n + 1..])
  }

  /** The first newline of a line followed by a newline ends that line */
  lemma NewlineIndexAfterLine(l: seq<byte>, rest: seq<byte>)
    requires NEWLINE !in l
    ensures NewlineIndex(l + [NEWLINE] + rest) == |l|
  {
    var s := l + [NEWLINE] + rest;
    assert forall j :: 0 <= j < |l| ==> s[j] == l[j];
    assert s[|l|] == NEWLINE;
  }

  /** The write stage's output determines the lines it wrote */
  lemma {:induction false} SplitJoined(ls: seq<seq<byte>>)
    requires forall i :: 0 <= i < |ls| ==> NEWLINE !in ls[i]
    ensures SplitLines(Joined(ls)) == ls
  {
    if ls != [] {
      var rest := Joined(ls[1..]);
      var s := ls[0] + [NEWLINE] + rest;
      assert Joined(ls) == s;
      NewlineIndexAfterLine(ls[0], rest);
      assert s[..|ls[0]|] == ls[0];
      assert s[|ls[0]| + 1..] == rest;
      SplitJoined(ls[1..]);
    }
  }

  /** The number of non-empty lines of `ls`, as the read threads count them */
  function CountNonEmpty(ls: seq<seq<byte>>): (n: nat)
    ensures n <= |ls|
  {
    if ls == [] then 0
    else CountNonEmpty(ls[..|ls| - 1]) + (if ls[|ls| - 1] == [] then 0 else 1)
  }

  /** Every line is counted exactly when none of them is blank */
  lemma {:induction false} CountNonEmptyAll(ls: seq<seq<byte>>)
    ensures CountNonEmpty(ls) == |ls| <==> forall i :: 0 <= i < |ls| ==> ls[i] != []
  {
    if ls != [] {
      var init := ls[..|ls| - 1];
      CountNonEmptyAll(init);
      assert forall i :: 0 <= i < |init| ==> init[i] == ls[i];
    }
  }

  /** What rows 0.. hold after `readThreads` read threads ran on `file`, for
      the rows that received a line of the file */
  function ReadLines(file: seq<seq<byte>>, readThreads: int): (r: seq<seq<byte>>)
    ensures |r| == if readThreads <= 0 then 0 else Min(readThreads, |file|)
    ensures forall k :: 0 <= k < |r| ==> r[k] == Stripped(file[k])
  {
    seq(if readThreads <= 0 then 0 else Min(readThreads, |file|), k requires 0 <= k < |file| => Stripped(file[k]))
  }

  /** The write thread's output when rows 0..total-1 hold `read` transformed
      by the upper threads 0..upperThreads-1 and the replace threads
      0..replaceThreads-1 */
  function Written(read: seq<seq<byte>>, total: nat, upperThreads: int, replaceThreads: int): seq<byte>
    requires total <= |read|
  {
    Joined(seq(total, k requires 0 <= k < total => Transformed(read[k], k < upperThreads, k < replaceThreads)))
  }

  /** The output of the program on `file`: only the first `totalLines` rows
      are written, and `totalLines` counts the non-empty lines read */
  function ExpectedOutput(file: seq<seq<byte>>, readThreads: int, upperThreads: int, replaceThreads: int): seq<byte>
  {
    var read := ReadLines(file, readThreads);
    Written(read, CountNonEmpty(read), upperThreads, replaceThreads)
  }

  /** What the program writes is a prefix of what it would write if it
      counted every line read */
  lemma OutputIsPrefix(file: seq<seq<byte>>, readThreads: int, upperThreads: int, replaceThreads: int)
    ensures ExpectedOutput(file, readThreads, upperThreads, replaceThreads)
      <= OutputCountingBlankLines(file, readThreads, upperThreads, replaceThreads)
  {
    var read := ReadLines(file, readThreads);
    WrittenPrefix(read, CountNonEmpty(read), upperThreads, replaceThreads);
  }

  /** The output for a smaller count is a prefix of the output for a larger */
  lemma WrittenPrefix(read: seq<seq<byte>>, n: nat, upperThreads: int, replaceThreads: int)
    requires n <= |read|
    ensures Written(read, n, upperThreads, replaceThreads) <= Written(read, |read|, upperThreads, replaceThreads)
  {
    var all := seq(|read|, k requires 0 <= k < |read| => Transformed(read[k], k < upperThreads, k < replaceThreads));
    assert seq(n, k requires 0 <= k < n => Transformed(read[k], k < upperThreads, k < replaceThreads)) == all[..n];
    JoinedPrefix(all, n);
  }

  /** The output when every line read is counted, blank or not */
  function OutputCountingBlankLines(file: seq<seq<byte>>, readThreads: int, upperThreads: int, replaceThreads: int): seq<byte>
  {
    var read := ReadLines(file, readThreads);
    Written(read, |read|, upperThreads, replaceThreads)
  }

  /** What a loop that applied `f` to a row up to its NUL at `n` leaves: the
      mapped line, and the same bytes from the NUL on */
  lemma MappedRow(r0: seq<byte>, r: seq<byte>, n: nat, f: byte -> byte)
    requires forall b: byte :: b != NUL ==> f(b) != NUL
    requires |r| == |r0| && n == CStrLen(r0) && n < |r0|
    requires forall j :: 0 <= j < n ==> r[j] == f(r0[j])
    requires forall j :: n <= j < |r| ==> r[j] == r0[j]
    ensures CStr(r) == MapBytes(f, CStr(r0))
    ensures r[n..] == r0[n..]
  {
    assert r[n] == NUL;
    assert forall j :: 0 <= j < n ==> r[j] != NUL;
    assert CStrLen(r) == n;
  }

  /** A buffer whose front is `c` and a terminator holds the C string of `c` */
  lemma CStrOfPrefixed(r: seq<byte>, c: seq<byte>)
    requires |c| < |r| && r[..|c| + 1] == c + [NUL]
    ensures CStr(r) == CStr(c)
  {
    var n := CStrLen(c);
    assert r[n] == NUL by {
      if n < |c| { assert r[n] == c[n]; } else { assert r[|c|] == NUL; }
    }
    assert forall j :: 0 <= j < n ==> r[j] == c[j];
    assert CStrLen(r) == n;
  }

  /** Writing a NUL at the strcspn position of a row leaves the row's line
      cut at its first newline */
  lemma StripInRow(r0: seq<byte>, r: seq<byte>, p: nat)
    requires NUL in r0 && p == NewlineSpan(r0) && |r| == |r0| && p < |r|
    requires r[p] == NUL && forall j :: 0 <= j < |r| && j != p ==> r[j] == r0[j]
    ensures CStr(r) == Stripped(CStr(r0))
  {
    var c := CStr(r0);
    assert forall j :: 0 <= j < p ==> r[j] == r0[j] && r[j] != NUL;
    assert CStrLen(r) == p;
    assert p <= |c|;
    assert forall j :: 0 <= j < p ==> c[j] == r0[j];
    assert NewlineSpan(c) == p by {
      if p < |c| { assert c[p] == r0[p]; }
    }
  }

  lemma StrippedOfCStr(c: seq<byte>)
    ensures Stripped(CStr(c)) == Stripped(c)
  {
    var n := NewlineSpan(c);
    var m := CStrLen(c);
    assert n <= m;
    assert forall j :: 0 <= j < n ==> CStr(c)[j] == c[j];
    assert NewlineSpan(CStr(c)) == n by {
      if n < m { assert CStr(c)[n] == c[n]; }
    }
  }

  /** One more read thread adds the line it read to the count unless it is blank */
  lemma CountOneMoreRead(file: seq<seq<byte>>, i: nat)
    ensures CountNonEmpty(ReadLines(file, i + 1))
      == CountNonEmpty(ReadLines(file, i)) + if i < |file| && Stripped(file[i]) != [] then 1 else 0
  {
    var next := ReadLines(file, i + 1);
    if i < |file| {
      assert next[..|next| - 1] == ReadLines(file, i);
    } else {
      assert next == ReadLines(file, i);
    }
  }

  /** The write thread's output over rows holding the transformed lines */
  lemma WrittenFromRows(rows: seq<seq<byte>>, read: seq<seq<byte>>, total: nat, upperThreads: int, replaceThreads: int)
    requires total <= |read| && total <= |rows|
    requires forall k :: 0 <= k < total ==> rows[k] == Transformed(read[k], k < upperThreads, k < replaceThreads)
    ensures Joined(rows[..total]) == Written(read, total, upperThreads, replaceThreads)
  {
    assert rows[..total] == seq(total, k requires 0 <= k < total => Transformed(read[k], k < upperThreads, k < replaceThreads));
  }

  /** A sequence that differs from `before` at most at `k` is `before`
      updated at `k` */
  lemma LinesUpdated(before: seq<seq<byte>>, after: seq<seq<byte>>, k: int)
    requires |before| == |after| && 0 <= k < |after|
    requires forall m :: 0 <= m < |after| && m != k ==> after[m] == before[m]
    ensures after == before[k := after[k]]
  {
  }

  /** A second write to the same index replaces the first */
  lemma Overwritten(ls: seq<seq<byte>>, k: int, first: seq<byte>, second: seq<byte>)
    requires 0 <= k < |ls|
    ensures ls[k := first][k := second] == ls[k := second]
  {
  }

  /** A unit of work of an upper or a replace thread: thread i receives line i */
  datatype Task = Upper(line: int) | Replace(line: int)

  /** The tasks of `upperThreads` upper threads and `replaceThreads` replace threads */
  function Tasks(upperThreads: int, replaceThreads: int): seq<Task>
  {
    seq(if upperThreads < 0 then 0 else upperThreads, i => Upper(i))
      + seq(if replaceThreads < 0 then 0 else replaceThreads, i => Replace(i))
  }

  /** The global state of project3.c: the line store and its two counters */
  class LineStore {
    var lines: array2<byte>
    var totalLines: int
    var currentReadIndex: int

    /** The dimensions of `lines[MAX_LINES][MAX_LINE_LENGTH]` */
    ghost predicate Shaped()
      reads this`lines
    {
      lines.Length0 == MAX_LINES && lines.Length1 == MAX_LINE_LENGTH
    }

    /** Every row holds a NUL-terminated C string */
    ghost predicate Terminated()
      reads this`lines, lines
      requires Shaped()
    {
      forall k :: 0 <= k < MAX_LINES ==> NUL in Row(k)
    }

    ghost predicate Valid()
      reads this, lines
    {
      && Shaped()
      && Terminated()
      && 0 <= totalLines <= currentReadIndex <= MAX_LINES
    }

    function Row(k: int): seq<byte>
      reads this`lines, lines
      requires 0 <= k < lines.Length0
    {
      RowOf(lines, k)
    }

    /** The C string held in row `k` */
    function Line(k: int): seq<byte>
      reads this`lines, lines
      requires 0 <= k < lines.Length0
    {
      CStr(Row(k))
    }

    ghost function Lines(): (ls: seq<seq<byte>>)
      reads this`lines, lines
      requires Shaped()
      ensures |ls| == MAX_LINES
      ensures forall k :: 0 <= k < MAX_LINES ==> ls[k] == Line(k)
    {
      var a := lines;
      seq(MAX_LINES, k requires 0 <= k < MAX_LINES reads a => if k < a.Length0 then CStr(RowOf(a, k)) else [])
    }

    /** The zero-initialised globals */
    constructor ()
      ensures Valid() && fresh(lines)
      ensures totalLines == 0 && currentReadIndex == 0
      ensures forall k :: 0 <= k < MAX_LINES ==> Line(k) == []
    {
      lines := new byte[MAX_LINES, MAX_LINE_LENGTH]((_, _) => NUL);
      totalLines, currentReadIndex := 0, 0;
      new;
      forall k | 0 <= k < MAX_LINES
        ensures NUL in Row(k) && Line(k) == []
      {
        assert Row(k)[0] == NUL;
      }
    }

    /** One successful fgets into row `k`: the chunk and its terminator
        overwrite the front of the row */
    method FGets(k: int, chunk: seq<byte>)
      requires Valid() && 0 <= k < MAX_LINES && |chunk| < MAX_LINE_LENGTH
      modifies lines
      ensures Valid()
      ensures Row(k) == chunk + [NUL] + old(Row(k))[|chunk| + 1..]
      ensures forall m :: 0 <= m < MAX_LINES && m != k ==> Row(m) == old(Row(m))
    {
      forall j | 0 <= j <= |chunk| {
        lines[k, j] := if j < |chunk| then chunk[j] else NUL;
      }
      assert Row(k)[|chunk|] == NUL;
      assert Row(k) == chunk + [NUL] + old(Row(k))[|chunk| + 1..];
      forall m | 0 <= m < MAX_LINES && m != k
        ensures Row(m) == old(Row(m)) && NUL in Row(m)
      {
      }
    }

    /** The loop of a read thread that calls fgets k+1 times into row `k`,
        giving up when the file ends first */
    method FetchLine(file: seq<seq<byte>>, k: int) returns (ok: bool)
      requires Valid() && IsChunked(file) && 0 <= k < MAX_LINES
      modifies lines
      ensures Valid()
      ensures ok <==> k < |file|
      ensures ok ==> Lines() == old(Lines())[k := CStr(file[k])]
      ensures !ok ==> Lines() == old(Lines())[k := if file == [] then old(Line(k)) else CStr(file[|file| - 1])]
      ensures !ok && file == [] ==> Row(k) == old(Row(k))
      ensures forall m :: 0 <= m < MAX_LINES && m != k ==> Row(m) == old(Row(m))
    {
      var i := 0;
      while i <= k
        invariant 0 <= i <= k + 1 && i <= |file|
        invariant Valid()
        invariant i > 0 ==> Row(k)[..|file[i - 1]| + 1] == file[i - 1] + [NUL]
        invariant i == 0 ==> Row(k) == old(Row(k))
        invariant forall m :: 0 <= m < MAX_LINES && m != k ==> Row(m) == old(Row(m))
      {
        if i == |file| {
          if i > 0 {
            CStrOfPrefixed(Row(k), file[i - 1]);
          }
          LinesUpdated(old(Lines()), Lines(), k);
          return false;
        }
        FGets(k, file[i]);
        i := i + 1;
      }
      CStrOfPrefixed(Row(k), file[k]);
      LinesUpdated(old(Lines()), Lines(), k);
      return true;
    }

    /** `lines[k][strcspn(lines[k], "\n")] = '\0'`: ends the line of row
        `k` at its first newline */
    method StripNewline(k: int)
      requires Valid() && 0 <= k < MAX_LINES
      modifies lines
      ensures Valid()
      ensures Lines() == old(Lines())[k := Stripped(old(Line(k)))]
      ensures forall m :: 0 <= m < MAX_LINES && m != k ==> Row(m) == old(Row(m))
    {
      var p := NewlineSpan(Row(k));
      ghost var before := Row(k);
      lines[k, p] := NUL;
      forall m | 0 <= m < MAX_LINES && m != k
        ensures Row(m) == old(Row(m)) && NUL in Row(m)
      {
      }
      assert Row(k)[p] == NUL;
      StripInRow(before, Row(k), p);
      LinesUpdated(old(Lines()), Lines(), k);
    }

    /** A read thread: takes the next line index, fetches that line, strips
        its newline and counts it when it is not empty. A thread whose line
        is past the end of the file leaves the last chunk fgets returned in
        its row, newline included, and does not count it. */
    method ReadLine(file: seq<seq<byte>>)
      requires Valid() && IsChunked(file) && currentReadIndex < MAX_LINES
      modifies this, lines
      ensures Valid() && lines == old(lines)
      ensures currentReadIndex == old(currentReadIndex) + 1
      ensures old(currentReadIndex) < |file| ==>
        Lines() == old(Lines())[old(currentReadIndex) := Stripped(file[old(currentReadIndex)])]
      ensures |file| <= old(currentReadIndex) ==>
        Lines() == old(Lines())[old(currentReadIndex) :=
          if file == [] then old(Line(currentReadIndex)) else CStr(file[|file| - 1])]
      ensures totalLines == old(totalLines) +
        if old(currentReadIndex) < |file| && Stripped(file[old(currentReadIndex)]) != [] then 1 else 0
    {
      var lineIndex := currentReadIndex;
      currentReadIndex := currentReadIndex + 1;
      var ok := FetchLine(file, lineIndex);
      if ok {
        StripNewline(lineIndex);
        StrippedOfCStr(file[lineIndex]);
        Overwritten(old(Lines()), lineIndex, CStr(file[lineIndex]), Stripped(file[lineIndex]));
        assert Line(lineIndex) == Stripped(file[lineIndex]);
        assert |Line(lineIndex)| != 0 <==> Stripped(file[lineIndex]) != [];
        if |Line(lineIndex)| != 0 {
          totalLines := totalLines + 1;
        }
      }
    }

    /** The read thread with the blank-line test moved after the count:
        every line fetched is counted, so the write thread also emits blank
        lines and the lines after them */
    method ReadLineCountingBlanks(file: seq<seq<byte>>)
      requires Valid() && IsChunked(file) && currentReadIndex < MAX_LINES
      modifies this, lines
      ensures Valid() && lines == old(lines)
      ensures currentReadIndex == old(currentReadIndex) + 1
      ensures old(currentReadIndex) < |file| ==>
        Lines() == old(Lines())[old(currentReadIndex) := Stripped(file[old(currentReadIndex)])]
      ensures |file| <= old(currentReadIndex) ==>
        Lines() == old(Lines())[old(currentReadIndex) :=
          if file == [] then old(Line(currentReadIndex)) else CStr(file[|file| - 1])]
      ensures totalLines == old(totalLines) + if old(currentReadIndex) < |file| then 1 else 0
    {
      var lineIndex := currentReadIndex;
      currentReadIndex := currentReadIndex + 1;
      var ok := FetchLine(file, lineIndex);
      if ok {
        StripNewline(lineIndex);
        StrippedOfCStr(file[lineIndex]);
        Overwritten(old(Lines()), lineIndex, CStr(file[lineIndex]), Stripped(file[lineIndex]));
        totalLines := totalLines + 1;
      }
    }

    /** An upper thread on row `k`: turns a..z into A..Z up to the NUL */
    method UpperLine(k: int)
      requires Valid() && 0 <= k < MAX_LINES
      modifies lines
      ensures Valid()
      ensures Line(k) == Uppercased(old(Line(k)))
      ensures Row(k)[|Line(k)|..] == old(Row(k))[|Line(k)|..]
      ensures forall m :: 0 <= m < MAX_LINES && m != k ==> Row(m) == old(Row(m))
    {
      ghost var len := CStrLen(Row(k));
      var i := 0;
      while lines[k, i] != NUL
        invariant 0 <= i <= len < MAX_LINE_LENGTH
        invariant forall j :: 0 <= j < i ==> lines[k, j] == UpperByte(old(lines[k, j]))
        invariant forall j :: i <= j < MAX_LINE_LENGTH ==> lines[k, j] == old(lines[k, j])
        invariant forall m, j :: 0 <= m < MAX_LINES && m != k && 0 <= j < MAX_LINE_LENGTH ==> lines[m, j] == old(lines[m, j])
        decreases len - i
      {
        if LOWER_A <= lines[k, i] <= LOWER_Z {
          lines[k, i] := lines[k, i] - CASE_OFFSET;
        }
        i := i + 1;
      }
      MappedRow(old(Row(k)), Row(k), i, UpperByte);
      assert Row(k)[i] == NUL;
      forall m | 0 <= m < MAX_LINES && m != k
        ensures Row(m) == old(Row(m)) && NUL in Row(m)
      {
      }
    }

    /** A replace thread on row `k`: turns spaces into underscores up to the NUL */
    method ReplaceLine(k: int)
      requires Valid() && 0 <= k < MAX_LINES
      modifies lines
      ensures Valid()
      ensures Line(k) == Underscored(old(Line(k)))
      ensures Row(k)[|Line(k)|..] == old(Row(k))[|Line(k)|..]
      ensures forall m :: 0 <= m < MAX_LINES && m != k ==> Row(m) == old(Row(m))
    {
      ghost var len := CStrLen(Row(k));
      var i := 0;
      while lines[k, i] != NUL
        invariant 0 <= i <= len < MAX_LINE_LENGTH
        invariant forall j :: 0 <= j < i ==> lines[k, j] == UnderscoreByte(old(lines[k, j]))
        invariant forall j :: i <= j < MAX_LINE_LENGTH ==> lines[k, j] == old(lines[k, j])
        invariant forall m, j :: 0 <= m < MAX_LINES && m != k && 0 <= j < MAX_LINE_LENGTH ==> lines[m, j] == old(lines[m, j])
        decreases len - i
      {
        if lines[k, i] == SPACE {
          lines[k, i] := UNDERSCORE;
        }
        i := i + 1;
      }
      MappedRow(old(Row(k)), Row(k), i, UnderscoreByte);
      assert Row(k)[i] == NUL;
      forall m | 0 <= m < MAX_LINES && m != k
        ensures Row(m) == old(Row(m)) && NUL in Row(m)
      {
      }
    }

    /** The write thread: emits rows 0..totalLines-1, each with a newline */
    method WriteOutput() returns (output: seq<byte>)
      requires Valid()
      ensures output == Joined(Lines()[..totalLines])
    {
      output := [];
      var i := 0;
      while i < totalLines
        invariant 0 <= i <= totalLines
        invariant output == Joined(Lines()[..i])
      {
        output := output + Line(i) + [NEWLINE];
        JoinedSnoc(Lines()[..i], Line(i));
        assert Lines()[..i + 1] == Lines()[..i] + [Line(i)];
        i := i + 1;
      }
    }
  }

  lemma TaskMembership(upperThreads: int, replaceThreads: int, k: int)
    ensures Upper(k) in Tasks(upperThreads, replaceThreads) <==> 0 <= k < upperThreads
    ensures Replace(k) in Tasks(upperThreads, replaceThreads) <==> 0 <= k < replaceThreads
  {
    var ts := Tasks(upperThreads, replaceThreads);
    var u := if upperThreads < 0 then 0 else upperThreads;
    var r := if replaceThreads < 0 then 0 else replaceThreads;
    assert forall i :: 0 <= i < u ==> ts[i] == Upper(i);
    assert forall i :: u <= i < |ts| ==> ts[i] == Replace(i - u);
    if 0 <= k < upperThreads { assert ts[k] == Upper(k); }
    if 0 <= k < replaceThreads { assert ts[u + k] == Replace(k); }
  }

  /** After `i` read threads ran on `file`, rows 0.. hold the lines they read
      and `totalLines` is `total` */
  ghost predicate HasRead(store: LineStore, file: seq<seq<byte>>, i: int, total: int)
    reads store, store.lines
  {
    && store.Valid()
    && store.currentReadIndex == i
    && store.totalLines == total
    && store.Lines()[..|ReadLines(file, i)|] == ReadLines(file, i)
  }

  /** The read threads: read_mutex lets one in at a time, and the i-th to
      enter takes line index i */
  method ReadAll(store: LineStore, file: seq<seq<byte>>, readThreads: int)
    requires store.Valid() && IsChunked(file) && 0 <= readThreads <= MAX_LINES
    requires store.currentReadIndex == 0 && store.totalLines == 0
    modifies store, store.lines
    ensures store.lines == old(store.lines)
    ensures HasRead(store, file, readThreads, CountNonEmpty(ReadLines(file, readThreads)))
  {
    var i := 0;
    while i < readThreads
      invariant 0 <= i <= readThreads && store.lines == old(store.lines)
      invariant HasRead(store, file, i, CountNonEmpty(ReadLines(file, i)))
    {
      ReadNext(store, file, i);
      i := i + 1;
    }
  }

  /** The rows after read thread i ran, given the rows before it */
  lemma ReadStep(before: seq<seq<byte>>, after: seq<seq<byte>>, file: seq<seq<byte>>, i: nat)
    requires |before| == |after| == MAX_LINES && i < MAX_LINES
    requires before[..|ReadLines(file, i)|] == ReadLines(file, i)
    requires i < |file| ==> after == before[i := Stripped(file[i])]
    requires |file| <= i ==> after == before[i := after[i]]
    ensures after[..|ReadLines(file, i + 1)|] == ReadLines(file, i + 1)
  {
    var next := ReadLines(file, i + 1);
    if i < |file| {
      assert next == ReadLines(file, i) + [Stripped(file[i])];
    } else {
      assert next == ReadLines(file, i);
    }
  }

  /** The read thread that enters read_mutex i-th */
  method ReadNext(store: LineStore, file: seq<seq<byte>>, i: nat)
    requires IsChunked(file) && i < MAX_LINES
    requires HasRead(store, file, i, CountNonEmpty(ReadLines(file, i)))
    modifies store, store.lines
    ensures store.lines == old(store.lines)
    ensures HasRead(store, file, i + 1, CountNonEmpty(ReadLines(file, i + 1)))
  {
    ghost var before := store.Lines();
    store.ReadLine(file);
    CountOneMoreRead(file, i);
    ReadStep(before, store.Lines(), file, i);
  }

  /** The corrected read threads, each counting its line even when blank */
  method ReadAllCountingBlanks(store: LineStore, file: seq<seq<byte>>, readThreads: int)
    requires store.Valid() && IsChunked(file) && 0 <= readThreads <= MAX_LINES
    requires store.currentReadIndex == 0 && store.totalLines == 0
    modifies store, store.lines
    ensures store.lines == old(store.lines)
    ensures HasRead(store, file, readThreads, |ReadLines(file, readThreads)|)
  {
    var i := 0;
    while i < readThreads
      invariant 0 <= i <= readThreads && store.lines == old(store.lines)
      invariant HasRead(store, file, i, |ReadLines(file, i)|)
    {
      ReadNextCountingBlanks(store, file, i);
      i := i + 1;
    }
  }

  /** The corrected read thread that enters read_mutex i-th */
  method ReadNextCountingBlanks(store: LineStore, file: seq<seq<byte>>, i: nat)
    requires IsChunked(file) && i < MAX_LINES
    requires HasRead(store, file, i, |ReadLines(file, i)|)
    modifies store, store.lines
    ensures store.lines == old(store.lines)
    ensures HasRead(store, file, i + 1, |ReadLines(file, i + 1)|)
  {
    ghost var before := store.Lines();
    store.ReadLineCountingBlanks(file);
    ReadStep(before, store.Lines(), file, i);
  }

  /** The line `s` after the thread that owns `task` ran on it */
  function Applied(task: Task, s: seq<byte>): seq<byte>
  {
    match task
    case Upper(_) => Uppercased(s)
    case Replace(_) => Underscored(s)
  }

  /** The body of the thread that owns `task` */
  method ApplyTask(store: LineStore, task: Task)
    requires store.Valid() && 0 <= task.line < MAX_LINES
    modifies store.lines
    ensures store.Valid()
    ensures store.Lines() == old(store.Lines())[task.line := Applied(task, old(store.Line(task.line)))]
  {
    ghost var before := store.Lines();
    match task
    case Upper(k) => store.UpperLine(k);
    case Replace(k) => store.ReplaceLine(k);
    assert forall m :: 0 <= m < MAX_LINES && m != task.line ==> store.Lines()[m] == before[m];
  }

  /** The tasks of a schedule of Tasks(U, P) are exactly the tasks of Tasks(U, P) */
  lemma ScheduleCovers(schedule: seq<Task>, upperThreads: int, replaceThreads: int, k: int)
    requires multiset(schedule) == multiset(Tasks(upperThreads, replaceThreads))
    ensures Upper(k) in schedule <==> 0 <= k < upperThreads
    ensures Replace(k) in schedule <==> 0 <= k < replaceThreads
  {
    TaskMembership(upperThreads, replaceThreads, k);
    assert Upper(k) in schedule <==> Upper(k) in multiset(schedule);
    assert Replace(k) in schedule <==> Replace(k) in multiset(schedule);
  }

  /** Every task of a schedule of Tasks(U, P) names a line of the store */
  lemma ScheduledLine(schedule: seq<Task>, upperThreads: int, replaceThreads: int, t: int)
    requires 0 <= upperThreads <= MAX_LINES && 0 <= replaceThreads <= MAX_LINES
    requires multiset(schedule) == multiset(Tasks(upperThreads, replaceThreads))
    requires 0 <= t < |schedule|
    ensures 0 <= schedule[t].line < MAX_LINES
  {
    assert schedule[t] in multiset(Tasks(upperThreads, replaceThreads));
    TaskMembership(upperThreads, replaceThreads, schedule[t].line);
  }

  /** Once every task of the schedule ran, line k reflects upper thread k
      exactly when k < upperThreads, and likewise for the replace threads */
  lemma ScheduleDone(final: seq<seq<byte>>, original: seq<seq<byte>>, schedule: seq<Task>, upperThreads: int, replaceThreads: int)
    requires |final| == |original|
    requires multiset(schedule) == multiset(Tasks(upperThreads, replaceThreads))
    requires forall k :: 0 <= k < |final| ==>
      final[k] == Transformed(original[k], Upper(k) in schedule, Replace(k) in schedule)
    ensures forall k :: 0 <= k < |final| ==>
      final[k] == Transformed(original[k], k < upperThreads, k < replaceThreads)
  {
    forall k | 0 <= k < |final|
      ensures final[k] == Transformed(original[k], k < upperThreads, k < replaceThreads)
    {
      ScheduleCovers(schedule, upperThreads, replaceThreads, k);
    }
  }

  /** Lines that reflect the steps of `done`, after the thread of `task`
      runs, reflect the steps of `done + [task]`, whatever the order */
  lemma AppliedNext(before: seq<seq<byte>>, original: seq<seq<byte>>, done: seq<Task>, task: Task)
    requires |before| == |original| && 0 <= task.line < |before|
    requires forall k :: 0 <= k < |before| ==>
      before[k] == Transformed(original[k], Upper(k) in done, Replace(k) in done)
    ensures forall k :: 0 <= k < |before| ==>
      before[task.line := Applied(task, before[task.line])][k]
        == Transformed(original[k], Upper(k) in done + [task], Replace(k) in done + [task])
  {
    var k := task.line;
    var u, r := Upper(k) in done, Replace(k) in done;
    if task.Upper? {
      UpperAfterTransformed(original[k], u, r);
    } else {
      ReplaceAfterTransformed(original[k], u, r);
    }
  }

  /** The thread of `done`'s next task `task` runs: every line now reflects the
      steps of `done + [task]` */
  method ApplyNext(store: LineStore, ghost original: seq<seq<byte>>, ghost done: seq<Task>, task: Task)
    requires store.Valid() && |original| == MAX_LINES && 0 <= task.line < MAX_LINES
    requires forall k :: 0 <= k < MAX_LINES ==>
      store.Lines()[k] == Transformed(original[k], Upper(k) in done, Replace(k) in done)
    modifies store.lines
    ensures store.Valid()
    ensures forall k :: 0 <= k < MAX_LINES ==>
      store.Lines()[k] == Transformed(original[k], Upper(k) in done + [task], Replace(k) in done + [task])
  {
    ghost var before := store.Lines();
    ApplyTask(store, task);
    AppliedNext(before, original, done, task);
  }

  /** The upper and replace threads: all of them are started before any is
      joined and process_mutex lets one run at a time, so they run in some
      order `schedule` of their tasks */
  method TransformAll(store: LineStore, schedule: seq<Task>, upperThreads: int, replaceThreads: int)
    requires store.Valid()
    requires 0 <= upperThreads <= MAX_LINES && 0 <= replaceThreads <= MAX_LINES
    requires multiset(schedule) == multiset(Tasks(upperThreads, replaceThreads))
    modifies store.lines
    ensures store.Valid()
    ensures forall k :: 0 <= k < MAX_LINES ==> store.Lines()[k] == Transformed(old(store.Lines())[k], k < upperThreads, k < replaceThreads)
  {
    ghost var original := store.Lines();
    var t := 0;
    while t < |schedule|
      invariant 0 <= t <= |schedule|
      invariant store.Valid()
      invariant forall k :: 0 <= k < MAX_LINES ==>
        store.Lines()[k] == Transformed(original[k], Upper(k) in schedule[..t], Replace(k) in schedule[..t])
    {
      var task := schedule[t];
      assert schedule[..t + 1] == schedule[..t] + [task];
      ScheduledLine(schedule, upperThreads, replaceThreads, t);
      ApplyNext(store, original, schedule[..t], task);
      t := t + 1;
    }
    assert schedule[..t] == schedule;
    ScheduleDone(store.Lines(), original, schedule, upperThreads, replaceThreads);
  }

  /** The program on `file` with the given thread counts, for any order in
      which the upper and replace threads get the mutex */
  method Run(file: seq<seq<byte>>, readThreads: int, upperThreads: int, replaceThreads: int, schedule: seq<Task>)
    returns (output: seq<byte>)
    requires IsChunked(file)
    requires 0 <= readThreads <= MAX_LINES && 0 <= upperThreads <= MAX_LINES && 0 <= replaceThreads <= MAX_LINES
    requires multiset(schedule) == multiset(Tasks(upperThreads, replaceThreads))
    ensures output == ExpectedOutput(file, readThreads, upperThreads, replaceThreads)
  {
    var store := new LineStore();
    ReadAll(store, file, readThreads);
    TransformAll(store, schedule, upperThreads, replaceThreads);
    output := store.WriteOutput();
    WrittenFromRows(store.Lines(), ReadLines(file, readThreads), store.totalLines, upperThreads, replaceThreads);
  }

  /** The program with the corrected read threads */
  method RunCountingBlankLines(file: seq<seq<byte>>, readThreads: int, upperThreads: int, replaceThreads: int, schedule: seq<Task>)
    returns (output: seq<byte>)
    requires IsChunked(file)
    requires 0 <= readThreads <= MAX_LINES && 0 <= upperThreads <= MAX_LINES && 0 <= replaceThreads <= MAX_LINES
    requires multiset(schedule) == multiset(Tasks(upperThreads, replaceThreads))
    ensures output == OutputCountingBlankLines(file, readThreads, upperThreads, replaceThreads)
  {
    var store := new LineStore();
    ReadAllCountingBlanks(store, file, readThreads);
    TransformAll(store, schedule, upperThreads, replaceThreads);
    output := store.WriteOutput();
    WrittenFromRows(store.Lines(), ReadLines(file, readThreads), store.totalLines, upperThreads, replaceThreads);
  }

  /** The transformed lines a run writes, one per row 0..n-1 */
  function TransformedLines(read: seq<seq<byte>>, n: nat, upperThreads: int, replaceThreads: int): (r: seq<seq<byte>>)
    requires n <= |read|
    ensures |r| == n
  {
    seq(n, k requires 0 <= k < n => Transformed(read[k], k < upperThreads, k < replaceThreads))
  }

  /** Neither step creates a newline, so each written line stays one line */
  lemma TransformedKeepsNewlines(s: seq<byte>, upper: bool, replace: bool)
    ensures NEWLINE in s <==> NEWLINE in Transformed(s, upper, replace)
  {
    var u := if upper then Uppercased(s) else s;
    assert NEWLINE in s <==> NEWLINE in u by {
      if upper {
        assert forall i :: 0 <= i < |s| ==> (s[i] == NEWLINE <==> u[i] == NEWLINE);
      }
    }
    if replace {
      var r := Underscored(u);
      assert forall i :: 0 <= i < |u| ==> (u[i] == NEWLINE <==> r[i] == NEWLINE);
    }
  }

  /** The output of the program, read back as lines, is the first
      `totalLines` lines read, transformed: every line after the count is lost */
  lemma OutputLines(file: seq<seq<byte>>, readThreads: int, upperThreads: int, replaceThreads: int)
    ensures var read := ReadLines(file, readThreads);
      SplitLines(ExpectedOutput(file, readThreads, upperThreads, replaceThreads))
        == TransformedLines(read, CountNonEmpty(read), upperThreads, replaceThreads)
  {
    var read := ReadLines(file, readThreads);
    var ls := TransformedLines(read, CountNonEmpty(read), upperThreads, replaceThreads);
    forall k | 0 <= k < |ls| ensures NEWLINE !in ls[k] {
      TransformedKeepsNewlines(read[k], k < upperThreads, k < replaceThreads);
    }
    assert ExpectedOutput(file, readThreads, upperThreads, replaceThreads) == Joined(ls);
    SplitJoined(ls);
  }

  /** With the corrected count, every line read is written, transformed */
  lemma OutputLinesCountingBlankLines(file: seq<seq<byte>>, readThreads: int, upperThreads: int, replaceThreads: int)
    ensures var read := ReadLines(file, readThreads);
      SplitLines(OutputCountingBlankLines(file, readThreads, upperThreads, replaceThreads))
        == TransformedLines(read, |read|, upperThreads, replaceThreads)
  {
    var read := ReadLines(file, readThreads);
    var ls := TransformedLines(read, |read|, upperThreads, replaceThreads);
    forall k | 0 <= k < |ls| ensures NEWLINE !in ls[k] {
      TransformedKeepsNewlines(read[k], k < upperThreads, k < replaceThreads);
    }
    assert OutputCountingBlankLines(file, readThreads, upperThreads, replaceThreads) == Joined(ls);
    SplitJoined(ls);
  }

  /** A blank line among those read makes the program write fewer lines than
      it read; without one, both counts agree */
  lemma BlankLineLosesLines(file: seq<seq<byte>>, readThreads: int, upperThreads: int, replaceThreads: int)
    ensures var read := ReadLines(file, readThreads);
      var written := |SplitLines(ExpectedOutput(file, readThreads, upperThreads, replaceThreads))|;
      (written < |read| <==> exists k :: 0 <= k < |read| && read[k] == [])
      && (written == |read| ==> ExpectedOutput(file, readThreads, upperThreads, replaceThreads)
                                == OutputCountingBlankLines(file, readThreads, upperThreads, replaceThreads))
  {
    OutputLines(file, readThreads, upperThreads, replaceThreads);
    CountNonEmptyAll(ReadLines(file, readThreads));
  }

  /** The file "a\n\nb\n" as fgets delivers it */
  const BLANK_LINE_FILE: seq<seq<byte>> := [[97, 10], [10], [98, 10]]

  lemma BlankLineFileRead()
    ensures ReadLines(BLANK_LINE_FILE, 3) == [[97], [], [98]]
    ensures CountNonEmpty([[97], [], [98]]) == 2
  {
    var read := ReadLines(BLANK_LINE_FILE, 3);
    assert NewlineSpan([10]) == 0;
    assert NewlineSpan([97, 10]) == 1;
    assert NewlineSpan([98, 10]) == 1;
    assert read[0] == Stripped([97, 10]) == [97];
    assert read[1] == Stripped([10]) == [];
    assert read[2] == Stripped([98, 10]) == [98];
    var ls: seq<seq<byte>> := [[97], [], [98]];
    assert ls[..2][..1] == [[97]];
    assert ls[..2] == [[97], []];
  }

  /** With three threads of each kind the program reads the three lines of
      "a\n\nb\n" but writes only two of them; the corrected count writes all
      three */
  lemma BlankLineExample()
    ensures |ReadLines(BLANK_LINE_FILE, 3)| == 3
    ensures |SplitLines(ExpectedOutput(BLANK_LINE_FILE, 3, 3, 3))| == 2
    ensures |SplitLines(OutputCountingBlankLines(BLANK_LINE_FILE, 3, 3, 3))| == 3
  {
    BlankLineFileRead();
    OutputLines(BLANK_LINE_FILE, 3, 3, 3);
    OutputLinesCountingBlankLines(BLANK_LINE_FILE, 3, 3, 3);
  }
}
