/** Text helpers used by the passphrase generator: the decimal rendering of
    whole-millisecond timestamps, the line split of the fetched word list,
    and upper-casing of a drawn word. */
module Text {

  /** The decimal digit character for a value below ten. */
  function DigitChar(k: nat): (c: char)
    requires k < 10
    ensures '0' <= c <= '9'
    ensures c as int - '0' as int == k
  {
    ('0' as int + k) as char
  }

  predicate IsDigit(c: char) {
    '0' <= c <= '9'
  }

  predicate AllDigits(s: string) {
    forall i :: 0 <= i < |s| ==> IsDigit(s[i])
  }

  /** Shortest decimal text of a natural number: only digits, at least one,
      and a leading zero only for zero itself. */
  function NatText(n: nat): (s: string)
    ensures |s| > 0 && AllDigits(s)
    ensures (s[0] == '0') == (n == 0)
    ensures n < 10 <==> |s| == 1
  {
    if n < 10 then [DigitChar(n)] else NatText(n / 10) + [DigitChar(n % 10)]
  }

  /** How a whole-valued timestamp prints: a minus sign for negative values,
      then the digits of the magnitude, no fractional part. */
  function Decimal(n: int): (s: string)
    ensures |s| > 0
    ensures (s[0] == '-') == (n < 0)
  {
    if n < 0 then "-" + NatText(-n) else NatText(n)
  }

  function DigitValue(c: char): nat
    requires IsDigit(c)
  {
    c as int - '0' as int
  }

  lemma DigitCharValue(c: char)
    requires IsDigit(c)
    ensures DigitChar(DigitValue(c)) == c
  {
  }

  /** Reads a string of digits back as a number. */
  function ParseNat(s: string): nat
    requires AllDigits(s)
  {
    if s == [] then 0 else ParseNat(s[..|s| - 1]) * 10 + DigitValue(s[|s| - 1])
  }

  /** Reads an optionally negative decimal back as a number. */
  function ParseDecimal(s: string): int
    requires |s| > 0
    requires s[0] == '-' ==> AllDigits(s[1..])
    requires s[0] != '-' ==> AllDigits(s)
  {
    if s[0] == '-' then -(ParseNat(s[1..]) as int) else ParseNat(s)
  }

  lemma {:induction false} ParseNatText(n: nat)
    ensures ParseNat(NatText(n)) == n
  {
    if n >= 10 {
      var s := NatText(n);
      assert s[..|s| - 1] == NatText(n / 10);
      ParseNatText(n / 10);
    }
  }

  /** Parsing inverts the rendering, so no two timestamps print alike. */
  lemma DecimalRoundTrip(n: int)
    ensures |Decimal(n)| > 0
    ensures Decimal(n)[0] == '-' ==> AllDigits(Decimal(n)[1..])
    ensures Decimal(n)[0] != '-' ==> AllDigits(Decimal(n))
    ensures ParseDecimal(Decimal(n)) == n
  {
    if n < 0 {
      var t := NatText(-n);
      assert Decimal(n) == "-" + t;
      assert ("-" + t)[1..] == t;
      ParseNatText(-n);
    } else {
      ParseNatText(n);
    }
  }

  lemma DecimalInjective(a: int, b: int)
    requires Decimal(a) == Decimal(b)
    ensures a == b
  {
    DecimalRoundTrip(a);
    DecimalRoundTrip(b);
  }

  function UpperChar(c: char): char {
    if 'a' <= c <= 'z' then (c as int - ('a' as int - 'A' as int)) as char else c
  }

  /** Upper-casing, restricted to ASCII letters: every lower-case letter
      becomes its capital, every other character is kept. */
  function Upper(s: string): (r: string)
    ensures |r| == |s|
    ensures forall i :: 0 <= i < |s| ==> !('a' <= r[i] <= 'z')
    ensures forall i :: 0 <= i < |s| && !('a' <= s[i] <= 'z') ==> r[i] == s[i]
    ensures forall i :: 0 <= i < |s| && 'a' <= s[i] <= 'z' ==>
              r[i] as int == s[i] as int - ('a' as int - 'A' as int)
  {
    seq(|s|, i requires 0 <= i < |s| => UpperChar(s[i]))
  }

  /** Index of the first line feed, or |s| when there is none. */
  function NewlineIndex(s: string): (i: nat)
    ensures i <= |s|
    ensures i < |s| ==> s[i] == '\n'
    ensures forall j :: 0 <= j < i ==> s[j] != '\n'
  {
    if s == [] || s[0] == '\n' then 0 else 1 + NewlineIndex(s[1..])
  }

  /** Drops the carriage return of a "\r\n" line ending. */
  function StripCR(l: string): string {
    if |l| > 0 && l[|l| - 1] == '\r' then l[..|l| - 1] else l
  }

  /** The line split of a text: lines end at "\n" or "\r\n", the terminators
      are not kept, and a final line ending is optional (so an empty text has
      no lines and a trailing newline adds no empty line). */
  function Lines(s: string): (r: seq<string>)
    ensures forall k :: 0 <= k < |r| ==> '\n' !in r[k]
    decreases |s|
  {
    if s == [] then []
    else
      var i := NewlineIndex(s);
      if i == |s| then [s]
      else [StripCR(s[..i])] + Lines(s[i + 1..])
  }

  /** Each line followed by a line feed: the text a list of lines came from. */
  function Terminated(ls: seq<string>): string {
    if ls == [] then [] else ls[0] + "\n" + Terminated(ls[1..])
  }

  predicate PlainLine(l: string) {
    '\n' !in l && (|l| == 0 || l[|l| - 1] != '\r')
  }

  lemma NewlineIndexAfter(a: string, b: string)
    requires '\n' !in a
    ensures NewlineIndex(a + "\n" + b) == |a|
  {
    var s := a + "\n" + b;
    assert s[|a|] == '\n';
    forall j | 0 <= j < |a| ensures s[j] != '\n' {
      assert s[j] == a[j];
    }
  }

  /** Splitting a text written one line per row gives back those lines. */
  lemma {:induction false} LinesOfTerminated(ls: seq<string>)
    requires forall k :: 0 <= k < |ls| ==> PlainLine(ls[k])
    ensures Lines(Terminated(ls)) == ls
  {
    if ls != [] {
      var s := Terminated(ls);
      var rest := Terminated(ls[1..]);
      assert s == ls[0] + "\n" + rest;
      NewlineIndexAfter(ls[0], rest);
      assert s[..|ls[0]|] == ls[0];
      assert s[|ls[0]| + 1..] == rest;
      LinesOfTerminated(ls[1..]);
    }
  }

  /** Each line followed by a carriage return and a line feed. */
  function TerminatedCRLF(ls: seq<string>): string {
    if ls == [] then [] else ls[0] + "\r\n" + TerminatedCRLF(ls[1..])
  }

  /** Splitting a text written one line per row with "\r\n" endings gives
      back those lines: the carriage returns are dropped with the line feeds. */
  lemma {:induction false} LinesOfTerminatedCRLF(ls: seq<string>)
    requires forall k :: 0 <= k < |ls| ==> PlainLine(ls[k])
    ensures Lines(TerminatedCRLF(ls)) == ls
  {
    if ls != [] {
      var l := ls[0] + "\r";
      var s := TerminatedCRLF(ls);
      var rest := TerminatedCRLF(ls[1..]);
      assert s == l + "\n" + rest;
      assert '\n' !in l by {
        forall j | 0 <= j < |l| ensures l[j] != '\n' {
          if j < |ls[0]| {
            assert l[j] == ls[0][j];
          }
        }
      }
      NewlineIndexAfter(l, rest);
      assert s[..|l|] == l;
      assert l[..|l| - 1] == ls[0];
      assert s[|l| + 1..] == rest;
      LinesOfTerminatedCRLF(ls[1..]);
    }
  }

  predicate NoCR(s: string) {
    forall j :: 0 <= j < |s| ==> s[j] != '\r'
  }

  /** A text is its part before position i, the line feed at i, and the rest. */
  lemma SplitAround(s: string, i: nat)
    requires i < |s| && s[i] == '\n'
    ensures s == s[..i] + "\n" + s[i + 1..]
  {
    assert s[i..] == "\n" + s[i + 1..];
    assert s == s[..i] + s[i..];
  }

  /** Every part of a text without carriage returns has none either. */
  lemma NoCRSuffix(s: string, k: nat)
    requires NoCR(s) && k <= |s|
    ensures NoCR(s[k..])
  {
    forall j | 0 <= j < |s| - k ensures s[k..][j] != '\r' {
      assert s[k..][j] == s[k + j];
    }
  }

  /** In a text without carriage returns the first line is kept whole. */
  lemma FirstLine(s: string, i: nat)
    requires NoCR(s) && i == NewlineIndex(s) && i < |s|
    ensures Lines(s) == [s[..i]] + Lines(s[i + 1..])
  {
    if i > 0 {
      assert s[..i][i - 1] == s[i - 1];
    }
  }

  /** Writing the lines of a text back, one per row, gives the text itself,
      up to a line feed added at its end when it had none. */
  lemma {:induction false} TerminatedLines(s: string)
    requires NoCR(s)
    ensures Terminated(Lines(s)) == if s == [] || s[|s| - 1] == '\n' then s else s + "\n"
    decreases |s|
  {
    if s != [] {
      var i := NewlineIndex(s);
      if i == |s| {
        assert Lines(s) == [s];
        assert Terminated([s]) == s + "\n" + Terminated([]);
      } else {
        var head, rest := s[..i], s[i + 1..];
        SplitAround(s, i);
        NoCRSuffix(s, i + 1);
        FirstLine(s, i);
        TerminatedLines(rest);
        var tail := Terminated(Lines(rest));
        assert Terminated([head] + Lines(rest)) == head + "\n" + tail;
        if rest == [] {
          assert s[|s| - 1] == '\n';
        } else {
          assert s[|s| - 1] == rest[|rest| - 1];
          if rest[|rest| - 1] != '\n' {
            assert head + "\n" + (rest + "\n") == s + "\n";
          }
        }
      }
    }
  }
}
