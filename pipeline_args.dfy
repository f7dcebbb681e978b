/** The command line of the text pipeline (Project3/project3.c, main):
    `-d <file_name> -n <read> <upper> <replace> <write>`, checked for its two
    flags and turned into thread counts with atoi. */
module PipelineArgs {
  import opened Bytes

  datatype Option<T> = None | Some(value: T)

  /** The values main takes from its arguments */
  datatype Config = Config(fileName: seq<byte>, readThreads: int, upperThreads: int,
                           replaceThreads: int, writeThreads: int)

  const DASH_D: seq<byte> := [45, 100]   // "-d"
  const DASH_N: seq<byte> := [45, 110]   // "-n"
  const MINUS: byte := 45                // '-'
  const PLUS: byte := 43                 // '+'
  const DIGIT_ZERO: byte := 48           // '0'
  const DIGIT_NINE: byte := 57           // '9'

  // ---------------------------------------------------------------------
  // atoi

  /** isspace in the C locale: blank, and tab through carriage return */
  predicate IsSpace(b: byte) { b == SPACE || 9 <= b <= 13 }

  predicate IsDigit(b: byte) { DIGIT_ZERO <= b <= DIGIT_NINE }

  /** The number of leading bytes of `s` satisfying `p` */
  function RunLength(s: seq<byte>, p: byte -> bool): (n: nat)
    ensures n <= |s|
    ensures forall j :: 0 <= j < n ==> p(s[j])
    ensures n < |s| ==> !p(s[n])
  {
    if s == [] || !p(s[0]) then 0 else 1 + RunLength(s[1..], p)
  }

  /** The value of a string of decimal digits, most significant first */
  function DigitsValue(s: seq<byte>): nat
    requires forall j :: 0 <= j < |s| ==> IsDigit(s[j])
  {
    if s == [] then 0
    else
      var last := s[|s| - 1];
      assert IsDigit(last);
      DigitsValue(s[..|s| - 1]) * 10 + (last - DIGIT_ZERO) as int
  }

  /** The value of the digits at the front of `s` (0 when there are none) */
  function LeadingValue(s: seq<byte>): nat
  {
    DigitsValue(s[..RunLength(s, IsDigit)])
  }

  /** atoi: leading white space, an optional sign, then as many decimal digits
      as follow; anything after them is ignored and no digits give 0 */
  function Atoi(s: seq<byte>): (n: int)
    ensures n < 0 ==> MINUS in s
    ensures (forall j :: 0 <= j < |s| ==> !IsDigit(s[j])) ==> n == 0
  {
    var t := s[RunLength(s, IsSpace)..];
    NoDigitsNoValue(s, RunLength(s, IsSpace));
    if t != [] && t[0] == MINUS then -(LeadingValue(t[1..]) as int)
    else if t != [] && t[0] == PLUS then LeadingValue(t[1..])
    else LeadingValue(t)
  }

  /** In text without digits, every suffix has leading value 0 */
  lemma NoDigitsNoValue(s: seq<byte>, k: nat)
    requires k <= |s|
    ensures (forall j :: 0 <= j < |s| ==> !IsDigit(s[j])) ==>
      LeadingValue(s[k..]) == 0 && (k < |s| ==> LeadingValue(s[k + 1..]) == 0)
  {
    var t := s[k..];
    if forall j :: 0 <= j < |s| ==> !IsDigit(s[j]) {
      assert forall j :: 0 <= j < |t| ==> t[j] in s;
      if t != [] {
        assert t[1..] == s[k + 1..];
        assert forall j :: 0 <= j < |t[1..]| ==> t[1..][j] in s;
      }
    }
  }

  /** The decimal digits of `n`, without leading zeros */
  function Decimal(n: nat): (r: seq<byte>)
    ensures r != [] && forall j :: 0 <= j < |r| ==> IsDigit(r[j])
  {
    if n < 10 then [DIGIT_ZERO + n as byte]
    else Decimal(n / 10) + [DIGIT_ZERO + (n % 10) as byte]
  }

  /** How printf("%d") writes `n` */
  function DecimalInt(n: int): seq<byte>
  {
    if n < 0 then [MINUS] + Decimal(-n) else Decimal(n)
  }

  lemma {:induction false} DigitsValueOfDecimal(n: nat)
    ensures DigitsValue(Decimal(n)) == n
  {
    if n >= 10 {
      var d := Decimal(n);
      assert d[..|d| - 1] == Decimal(n / 10);
      DigitsValueOfDecimal(n / 10);
    }
  }

  /** The digit run of digits followed by a non-digit is exactly the digits */
  lemma {:induction false} DigitRunStops(d: seq<byte>, rest: seq<byte>)
    requires forall j :: 0 <= j < |d| ==> IsDigit(d[j])
    requires rest == [] || !IsDigit(rest[0])
    ensures RunLength(d + rest, IsDigit) == |d|
  {
    if d != [] {
      assert (d + rest)[1..] == d[1..] + rest;
      DigitRunStops(d[1..], rest);
    }
  }

  lemma LeadingValueOfDecimal(n: nat, rest: seq<byte>)
    requires rest == [] || !IsDigit(rest[0])
    ensures LeadingValue(Decimal(n) + rest) == n
  {
    var s := Decimal(n) + rest;
    DigitRunStops(Decimal(n), rest);
    assert s[..RunLength(s, IsDigit)] == Decimal(n);
    DigitsValueOfDecimal(n);
  }

  /** atoi on text that does not start with white space */
  lemma AtoiNoSpace(s: seq<byte>)
    requires s != [] && !IsSpace(s[0])
    ensures Atoi(s) == if s[0] == MINUS then -(LeadingValue(s[1..]) as int)
                       else if s[0] == PLUS then LeadingValue(s[1..])
                       else LeadingValue(s)
  {
    assert RunLength(s, IsSpace) == 0;
    assert s[0..] == s;
  }

  lemma AtoiOfNatural(n: nat, rest: seq<byte>)
    requires rest == [] || !IsDigit(rest[0])
    ensures Atoi(Decimal(n) + rest) == n
  {
    var s := Decimal(n) + rest;
    assert s[0] == Decimal(n)[0];
    AtoiNoSpace(s);
    LeadingValueOfDecimal(n, rest);
  }

  lemma AtoiOfNegative(n: nat, rest: seq<byte>)
    requires rest == [] || !IsDigit(rest[0])
    ensures Atoi([MINUS] + Decimal(n) + rest) == -(n as int)
  {
    var s := [MINUS] + Decimal(n) + rest;
    AtoiNoSpace(s);
    assert s[1..] == Decimal(n) + rest;
    LeadingValueOfDecimal(n, rest);
  }

  /** atoi reads back every number printed in decimal, whatever non-digit
      text follows it */
  lemma AtoiOfDecimal(n: int, rest: seq<byte>)
    requires rest == [] || !IsDigit(rest[0])
    ensures Atoi(DecimalInt(n) + rest) == n
  {
    if n < 0 {
      AtoiOfNegative(-n, rest);
    } else {
      AtoiOfNatural(n, rest);
    }
  }

  /** atoi skips leading white space */
  lemma AtoiSkipsSpace(b: byte, s: seq<byte>)
    requires IsSpace(b)
    ensures Atoi([b] + s) == Atoi(s)
  {
    var t := [b] + s;
    assert t[1..] == s;
    assert t[RunLength(t, IsSpace)..] == s[RunLength(s, IsSpace)..];
  }

  // ---------------------------------------------------------------------
  // The argument check

  /** The highest argv index main reads once its guard passes */
  const LAST_ARG_READ := 7

  /** main's guard as written: at least six arguments, "-d" first and "-n"
      third, although argv[6] and argv[7] are read afterwards. It lets every
      complete command line through. */
  function AcceptedAsWritten(argv: seq<seq<byte>>): (ok: bool)
    ensures |argv| > LAST_ARG_READ && argv[1] == DASH_D && argv[3] == DASH_N ==> ok
    ensures ok ==> |argv| > 3 && argv[1] == DASH_D && argv[3] == DASH_N
  {
    !(|argv| < 6 || argv[1] != DASH_D || argv[3] != DASH_N)
  }

  /** The guard lets through a command line that lacks the last two thread
      counts, so main reads argv[6] and argv[7] past the arguments given */
  lemma GuardAdmitsMissingCounts()
    ensures var argv := [[112], DASH_D, [102], DASH_N, [49], [49]];
      AcceptedAsWritten(argv) && |argv| <= LAST_ARG_READ
  {
  }

  /** The guard with the count the later reads need: argv[1] to argv[7]
      present, "-d" and "-n" in place; the counts are atoi of argv[4..8] */
  function ParseArgs(argv: seq<seq<byte>>): (r: Option<Config>)
    ensures r.Some? <==> |argv| > LAST_ARG_READ && argv[1] == DASH_D && argv[3] == DASH_N
    ensures r.Some? ==> AcceptedAsWritten(argv)
    ensures r.Some? ==> r.value.fileName == argv[2]
  {
    if |argv| < LAST_ARG_READ + 1 || argv[1] != DASH_D || argv[3] != DASH_N then None
    else Some(Config(argv[2], Atoi(argv[4]), Atoi(argv[5]), Atoi(argv[6]), Atoi(argv[7])))
  }

  /** A command line written from a configuration */
  function CommandLine(program: seq<byte>, c: Config): seq<seq<byte>>
  {
    [program, DASH_D, c.fileName, DASH_N, DecimalInt(c.readThreads), DecimalInt(c.upperThreads),
     DecimalInt(c.replaceThreads), DecimalInt(c.writeThreads)]
  }

  /** Parsing the command line written from a configuration gives it back */
  lemma ParseCommandLine(program: seq<byte>, c: Config)
    ensures ParseArgs(CommandLine(program, c)) == Some(c)
  {
    var argv := CommandLine(program, c);
    assert |argv| == LAST_ARG_READ + 1 && argv[1] == DASH_D && argv[3] == DASH_N;
    AtoiReadsDecimal(c.readThreads);
    AtoiReadsDecimal(c.upperThreads);
    AtoiReadsDecimal(c.replaceThreads);
    AtoiReadsDecimal(c.writeThreads);
    assert Atoi(argv[4]) == c.readThreads && Atoi(argv[5]) == c.upperThreads;
    assert Atoi(argv[6]) == c.replaceThreads && Atoi(argv[7]) == c.writeThreads;
  }

  lemma AtoiReadsDecimal(n: int)
    ensures Atoi(DecimalInt(n)) == n
  {
    AtoiOfDecimal(n, []);
    assert DecimalInt(n) + [] == DecimalInt(n);
  }
}
