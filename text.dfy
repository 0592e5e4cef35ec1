/** String helpers shared by the three scripts: prefix and suffix tests,
    Python's `str.removesuffix`, ASCII case folding, whitespace and decimal
    formatting. Strings are sequences of characters. */
module Text {

  predicate StartsWith(s: string, prefix: string)
  {
    |prefix| <= |s| && s[..|prefix|] == prefix
  }

  predicate EndsWith(s: string, suffix: string)
  {
    |suffix| <= |s| && s[|s| - |suffix|..] == suffix
  }

  /** Python's `str.removesuffix`: drops one trailing copy of `suffix`. */
  function RemoveSuffix(s: string, suffix: string): (r: string)
    ensures EndsWith(s, suffix) && suffix != [] ==> r + suffix == s
    ensures !EndsWith(s, suffix) || suffix == [] ==> r == s
  {
    if suffix != [] && EndsWith(s, suffix) then s[..|s| - |suffix|] else s
  }

  predicate IsDigit(c: char)
  {
    '0' <= c <= '9'
  }

  predicate AllDigits(s: string)
  {
    forall i :: 0 <= i < |s| ==> IsDigit(s[i])
  }

  /** ASCII lower-casing of one character. */
  function LowerChar(c: char): (r: char)
    ensures 'A' <= c <= 'Z' ==> r as int == c as int + 32
    ensures !('A' <= c <= 'Z') ==> r == c
  {
    if 'A' <= c <= 'Z' then (c as int + 32) as char else c
  }

  /** ASCII lower-casing of a string (Python's `str.lower` on ASCII text). */
  function Lower(s: string): (r: string)
    ensures |r| == |s|
    ensures forall i :: 0 <= i < |s| ==> r[i] == LowerChar(s[i])
  {
    if s == [] then [] else [LowerChar(s[0])] + Lower(s[1..])
  }

  /** The characters Python's `str.isspace` (and so `str.strip` and the `\s`
      class of `re`) accept. */
  predicate IsSpace(c: char)
  {
    var n := c as int;
    (0x09 <= n <= 0x0D) || (0x1C <= n <= 0x20) || n == 0x85 || n == 0xA0 ||
    n == 0x1680 || (0x2000 <= n <= 0x200A) || n == 0x2028 || n == 0x2029 ||
    n == 0x202F || n == 0x205F || n == 0x3000
  }

  /** The characters at which Python's `str.splitlines` ends a line. */
  predicate IsLineBoundary(c: char)
  {
    var n := c as int;
    (0x0A <= n <= 0x0D) || (0x1C <= n <= 0x1E) || n == 0x85 || n == 0x2028 || n == 0x2029
  }

  function StripLeft(s: string): (r: string)
    ensures |r| <= |s| && r == s[|s| - |r|..]
    ensures r != [] ==> !IsSpace(r[0])
    ensures forall i :: 0 <= i < |s| - |r| ==> IsSpace(s[i])
  {
    if s != [] && IsSpace(s[0]) then StripLeft(s[1..]) else s
  }

  function StripRight(s: string): (r: string)
    ensures |r| <= |s| && r == s[..|r|]
    ensures r != [] ==> !IsSpace(r[|r| - 1])
    ensures forall i :: |r| <= i < |s| ==> IsSpace(s[i])
  {
    if s != [] && IsSpace(s[|s| - 1]) then StripRight(s[..|s| - 1]) else s
  }

  /** Python's `str.strip()`: removes leading and trailing whitespace. */
  function Strip(s: string): (r: string)
    ensures r != [] ==> !IsSpace(r[0]) && !IsSpace(r[|r| - 1])
    ensures exists i, j ::
              && 0 <= i <= j <= |s| && r == s[i..j]
              && (forall k :: 0 <= k < i ==> IsSpace(s[k]))
              && (forall k :: j <= k < |s| ==> IsSpace(s[k]))
  {
    var l := StripLeft(s);
    var r := StripRight(l);
    SpanOf(s, l, r);
    r
  }

  /** `r`, taken from the front of a suffix `l` of `s` with only whitespace
      after it, sits in `s` with only whitespace after it. */
  lemma SpanOf(s: string, l: string, r: string)
    requires |l| <= |s| && l == s[|s| - |l|..] && |r| <= |l| && r == l[..|r|]
    requires forall k :: |r| <= k < |l| ==> IsSpace(l[k])
    ensures r == s[|s| - |l|..|s| - |l| + |r|]
    ensures forall k :: |s| - |l| + |r| <= k < |s| ==> IsSpace(s[k])
  {
    var i := |s| - |l|;
    forall k | i + |r| <= k < |s| ensures IsSpace(s[k]) {
      assert s[k] == l[k - i];
    }
  }

  /** The longest prefix of `s` free of line boundaries. */
  function LineEnd(s: string): (n: nat)
    ensures n <= |s|
    ensures forall i :: 0 <= i < n ==> !IsLineBoundary(s[i])
    ensures n < |s| ==> IsLineBoundary(s[n])
  {
    LineEndFrom(s, 0)
  }

  /** The first line boundary at or after `i`, or the end of the text. */
  function LineEndFrom(s: string, i: nat): (n: nat)
    requires i <= |s|
    ensures i <= n <= |s|
    ensures forall j :: i <= j < n ==> !IsLineBoundary(s[j])
    ensures n < |s| ==> IsLineBoundary(s[n])
    decreases |s| - i
  {
    if i == |s| || IsLineBoundary(s[i]) then i else LineEndFrom(s, i + 1)
  }

  /** The length of the boundary at `n`: "\r\n" counts as one boundary. */
  function BreakLength(s: string, n: nat): nat
    requires n < |s|
  {
    if n + 1 < |s| && s[n] == '\r' && s[n + 1] == '\n' then 2 else 1
  }

  /** Python's `str.splitlines()`: the text cut at every line boundary, where
      "\r\n" counts as one boundary and a final boundary opens no empty line. */
  function SplitLines(s: string): (lines: seq<string>)
    ensures forall k, i :: 0 <= k < |lines| && 0 <= i < |lines[k]| ==> !IsLineBoundary(lines[k][i])
    ensures s == [] <==> lines == []
    decreases |s|
  {
    if s == [] then []
    else
      var n := LineEnd(s);
      if n == |s| then [s]
      else [s[..n]] + SplitLines(s[n + BreakLength(s, n)..])
  }

  /** A line boundary as `str.splitlines` consumes it: "\r\n" or one
      boundary character. */
  predicate IsBreak(b: string)
  {
    b == "\r\n" || (|b| == 1 && IsLineBoundary(b[0]))
  }

  /** The boundary that ends each line `SplitLines` returns; the last line
      ends at the end of the text when the text has no final boundary. */
  function Breaks(s: string): seq<string>
    decreases |s|
  {
    if s == [] then []
    else
      var n := LineEnd(s);
      if n == |s| then [""]
      else [s[n..n + BreakLength(s, n)]] + Breaks(s[n + BreakLength(s, n)..])
  }

  /** Each line followed by its boundary. */
  function Rejoin(lines: seq<string>, breaks: seq<string>): string
    requires |lines| == |breaks|
  {
    if lines == [] then [] else lines[0] + breaks[0] + Rejoin(lines[1..], breaks[1..])
  }

  lemma SplitLinesCons(s: string, n: nat)
    requires n == LineEnd(s) < |s|
    ensures SplitLines(s) == [s[..n]] + SplitLines(s[n + BreakLength(s, n)..])
  {
  }

  lemma BreaksCons(s: string, n: nat)
    requires n == LineEnd(s) < |s|
    ensures Breaks(s) == [s[n..n + BreakLength(s, n)]] + Breaks(s[n + BreakLength(s, n)..])
  {
  }

  /** One line and its boundary in front of a rejoined rest. */
  lemma RejoinStep(s: string, n: nat, k: nat, lines: seq<string>, bs: seq<string>, rl: seq<string>, rb: seq<string>)
    requires n + k <= |s| && lines == [s[..n]] + rl && bs == [s[n..n + k]] + rb
    requires |rl| == |rb| && Rejoin(rl, rb) == s[n + k..]
    ensures |lines| == |bs| && Rejoin(lines, bs) == s
  {
    assert lines[0] == s[..n] && bs[0] == s[n..n + k];
    assert lines[1..] == rl && bs[1..] == rb;
    calc {
      Rejoin(lines, bs);
      lines[0] + bs[0] + Rejoin(lines[1..], bs[1..]);
      s[..n] + s[n..n + k] + s[n + k..];
      { assert s[..n] + s[n..n + k] == s[..n + k]; }
      s[..n + k] + s[n + k..];
      { assert s == s[..n + k] + s[n + k..]; }
      s;
    }
  }

  /** Splitting loses nothing: the lines with their boundaries put back give
      the text. */
  lemma {:induction false} SplitLinesRoundTrip(s: string)
    ensures |SplitLines(s)| == |Breaks(s)|
    ensures Rejoin(SplitLines(s), Breaks(s)) == s
    decreases |s|
  {
    if s != [] {
      var n := LineEnd(s);
      if n == |s| {
        assert Rejoin([s], [""]) == s + "" + Rejoin([], []);
      } else {
        var rest := s[n + BreakLength(s, n)..];
        SplitLinesRoundTrip(rest);
        SplitLinesCons(s, n);
        BreaksCons(s, n);
        RejoinStep(s, n, BreakLength(s, n), SplitLines(s), Breaks(s), SplitLines(rest), Breaks(rest));
      }
    }
  }

  /** Every boundary `Breaks` reports is a line boundary; only the last line
      may end at the end of the text instead. */
  lemma {:induction false} BreaksAreBoundaries(s: string)
    ensures BreaksWellFormed(Breaks(s))
    decreases |s|
  {
    if s != [] && LineEnd(s) < |s| {
      var n := LineEnd(s);
      var rest := s[n + BreakLength(s, n)..];
      BreaksAreBoundaries(rest);
      BreaksCons(s, n);
      BreakAtLineEnd(s, n);
      BreaksWellFormedCons(s[n..n + BreakLength(s, n)], Breaks(rest));
    }
  }

  /** Every boundary is a line boundary, except an empty last one. */
  predicate BreaksWellFormed(bs: seq<string>)
  {
    forall k :: 0 <= k < |bs| ==> IsBreak(bs[k]) || (k == |bs| - 1 && bs[k] == "")
  }

  /** What ends the first line, when it is not the end of the text, is a
      line boundary. */
  lemma BreakAtLineEnd(s: string, n: nat)
    requires n == LineEnd(s) < |s|
    ensures IsBreak(s[n..n + BreakLength(s, n)])
  {
    var b := s[n..n + BreakLength(s, n)];
    if BreakLength(s, n) == 2 { assert b == "\r\n"; } else { assert b == [s[n]]; }
  }

  lemma BreaksWellFormedCons(b: string, bs: seq<string>)
    requires IsBreak(b) && BreaksWellFormed(bs)
    ensures BreaksWellFormed([b] + bs)
  {
    forall k | 1 <= k < |[b] + bs| ensures IsBreak(([b] + bs)[k]) || (k == |[b] + bs| - 1 && ([b] + bs)[k] == "") {
      assert ([b] + bs)[k] == bs[k - 1];
    }
  }


  /** Python's `"\n".join(lines)` with the POSIX line separator. */
  function JoinLines(lines: seq<string>): string
  {
    if lines == [] then []
    else if |lines| == 1 then lines[0]
    else lines[0] + "\n" + JoinLines(lines[1..])
  }

  function DigitChar(d: nat): (c: char)
    requires d < 10
    ensures IsDigit(c)
  {
    ('0' as int + d) as char
  }

  /** Decimal digits of a natural number, without leading zeros. */
  function NatToDecimal(n: nat): (r: string)
    ensures r != [] && AllDigits(r)
    ensures |r| > 1 ==> r[0] != '0'
  {
    if n < 10 then [DigitChar(n)] else NatToDecimal(n / 10) + [DigitChar(n % 10)]
  }

  /** Python's `f"{n}"` for an integer. */
  function IntToDecimal(n: int): (r: string)
    ensures r != []
    ensures n >= 0 ==> AllDigits(r)
    ensures n < 0 ==> r[0] == '-' && AllDigits(r[1..])
  {
    if n < 0 then "-" + NatToDecimal(-n) else NatToDecimal(n)
  }

  /** The number a string of decimal digits denotes. */
  function DecimalValue(s: string): nat
    requires AllDigits(s)
  {
    if s == [] then 0 else 10 * DecimalValue(s[..|s| - 1]) + (s[|s| - 1] as int - '0' as int)
  }

  /** Formatting a natural number and reading it back gives the number. */
  lemma {:induction false} NatToDecimalRoundTrip(n: nat)
    ensures DecimalValue(NatToDecimal(n)) == n
  {
    if n >= 10 {
      NatToDecimalRoundTrip(n / 10);
      var r := NatToDecimal(n);
      assert r[..|r| - 1] == NatToDecimal(n / 10);
    }
  }
}
