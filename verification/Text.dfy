/** The pieces of Python's `str` that the Wi-Fi code leans on: `splitlines`, `strip`, `int(...)`
    and decimal printing. Characters are Unicode code points. */
module Text {
  datatype Option<+T> = None | Some(value: T)

  // ---------- splitlines ----------

  /** The line boundaries of `str.splitlines`. */
  predicate IsLineBreak(c: char) {
    var n := c as int;
    0x0a <= n <= 0x0d || 0x1c <= n <= 0x1e || n == 0x85 || n == 0x2028 || n == 0x2029
  }

  predicate OneLine(s: string) {
    forall i :: 0 <= i < |s| ==> !IsLineBreak(s[i])
  }

  /** Index of the first line boundary, or the length of the text. */
  function BreakAt(text: string): (k: nat)
    ensures k <= |text| && OneLine(text[..k])
    ensures k < |text| ==> IsLineBreak(text[k])
  {
    if text == "" || IsLineBreak(text[0]) then 0 else 1 + BreakAt(text[1..])
  }

  /** `text.splitlines()`; CR LF counts as one boundary and a final boundary opens no line. */
  function SplitLines(text: string): seq<string> {
    if text == "" then []
    else
      var k := BreakAt(text);
      if k == |text| then [text]
      else
        var rest := if text[k] == '\r' && k + 1 < |text| && text[k + 1] == '\n' then k + 2 else k + 1;
        [text[..k]] + SplitLines(text[rest..])
  }

  /** What a command prints: every line followed by a newline. */
  function Unlines(lines: seq<string>): string {
    if lines == [] then "" else lines[0] + "\n" + Unlines(lines[1..])
  }

  lemma {:induction false} BreakAfterLine(line: string, rest: string)
    requires OneLine(line)
    ensures BreakAt(line + "\n" + rest) == |line|
  {
    if line != "" {
      assert (line + "\n" + rest)[1..] == line[1..] + "\n" + rest;
      BreakAfterLine(line[1..], rest);
    }
  }

  lemma {:induction false} SplitUnlines(lines: seq<string>)
    requires forall i :: 0 <= i < |lines| ==> OneLine(lines[i])
    ensures SplitLines(Unlines(lines)) == lines
  {
    if lines != [] {
      var rest := Unlines(lines[1..]);
      var text := lines[0] + "\n" + rest;
      BreakAfterLine(lines[0], rest);
      assert text[..|lines[0]|] == lines[0];
      assert text[|lines[0]| + 1..] == rest;
      SplitUnlines(lines[1..]);
    }
  }

  // ---------- strip ----------

  /** The characters `str.strip` removes. */
  predicate IsSpace(c: char) {
    var n := c as int;
    || 0x09 <= n <= 0x0d || 0x1c <= n <= 0x20 || n == 0x85 || n == 0xa0 || n == 0x1680
    || 0x2000 <= n <= 0x200a || n == 0x2028 || n == 0x2029 || n == 0x202f || n == 0x205f || n == 0x3000
  }

  function LStrip(s: string): string {
    if s != "" && IsSpace(s[0]) then LStrip(s[1..]) else s
  }

  function RStrip(s: string): string {
    if s != "" && IsSpace(s[|s| - 1]) then RStrip(s[..|s| - 1]) else s
  }

  function Strip(s: string): string { RStrip(LStrip(s)) }

  /** Nothing for `strip` to remove. */
  predicate Trimmed(s: string) {
    s == "" || (!IsSpace(s[0]) && !IsSpace(s[|s| - 1]))
  }

  lemma {:induction false} LStripEdge(s: string)
    ensures LStrip(s) == "" || !IsSpace(LStrip(s)[0])
  {
    if s != "" && IsSpace(s[0]) { LStripEdge(s[1..]); }
  }

  lemma {:induction false} RStripEdge(s: string)
    ensures RStrip(s) <= s
    ensures RStrip(s) == "" || !IsSpace(RStrip(s)[|RStrip(s)| - 1])
  {
    if s != "" && IsSpace(s[|s| - 1]) { RStripEdge(s[..|s| - 1]); }
  }

  /** `strip` fixes exactly the strings without edge whitespace. */
  lemma StripFixes(s: string)
    ensures Strip(s) == s <==> Trimmed(s)
  {
    LStripEdge(s);
    RStripEdge(LStrip(s));
  }

  lemma {:induction false} LStripCuts(s: string) returns (i: nat)
    ensures i <= |s| && LStrip(s) == s[i..] && forall k :: 0 <= k < i ==> IsSpace(s[k])
  {
    i := 0;
    if s != "" && IsSpace(s[0]) {
      i := LStripCuts(s[1..]);
      assert s[1..][i..] == s[i + 1..];
      assert forall k :: 1 <= k <= i ==> s[k] == s[1..][k - 1];
      i := i + 1;
    }
  }

  lemma {:induction false} RStripCuts(s: string) returns (j: nat)
    ensures j <= |s| && RStrip(s) == s[..j] && forall k :: j <= k < |s| ==> IsSpace(s[k])
  {
    j := |s|;
    if s != "" && IsSpace(s[|s| - 1]) {
      j := RStripCuts(s[..|s| - 1]);
      assert forall k :: 0 <= k < |s| - 1 ==> s[k] == s[..|s| - 1][k];
    }
  }

  /** `strip` cuts whitespace off both edges, all of it and nothing else. */
  lemma StripIsCore(s: string) returns (i: nat, j: nat)
    ensures i <= j <= |s| && Strip(s) == s[i..j] && Trimmed(s[i..j])
    ensures forall k :: 0 <= k < i || j <= k < |s| ==> IsSpace(s[k])
  {
    i := LStripCuts(s);
    var n := RStripCuts(s[i..]);
    j := i + n;
    LStripEdge(s);
    RStripEdge(s[i..]);
    assert s[i..][..n] == s[i..j];
    assert forall k :: i <= k < |s| ==> s[k] == s[i..][k - i];
  }

  lemma {:induction false} LStripSnoc(s: string, c: char)
    requires IsSpace(c)
    ensures LStrip(s + [c]) == if LStrip(s) == "" then "" else LStrip(s) + [c]
  {
    if s == "" {
      assert (s + [c])[1..] == "";
    } else if IsSpace(s[0]) {
      assert (s + [c])[1..] == s[1..] + [c];
      LStripSnoc(s[1..], c);
    }
  }

  /** A trailing newline never survives. */
  lemma StripNewline(s: string)
    ensures Strip(s + "\n") == Strip(s)
  {
    LStripSnoc(s, '\n');
    var l := LStrip(s);
    assert (l + "\n")[..|l|] == l;
  }

  // ---------- int(...) and decimal printing ----------

  predicate IsDigit(c: char) { '0' <= c <= '9' }

  function DigitChar(d: nat): (c: char)
    requires d < 10
    ensures IsDigit(c) && c as int - '0' as int == d
  {
    ('0' as int + d) as char
  }

  /** Decimal digits of a natural number, as `str` and JSON print them. */
  function Decimal(n: nat): (s: string)
    ensures |s| > 0 && forall i :: 0 <= i < |s| ==> IsDigit(s[i])
  {
    if n < 10 then [DigitChar(n)] else Decimal(n / 10) + [DigitChar(n % 10)]
  }

  function SignedDecimal(n: int): string {
    if n < 0 then "-" + Decimal(-n) else Decimal(n)
  }

  /** ASCII digits with single underscores between them. */
  function DigitsValue(b: string): Option<int> {
    if b == "" || !IsDigit(b[|b| - 1]) then None
    else
      var d := b[|b| - 1] as int - '0' as int;
      var p := b[..|b| - 1];
      if p == "" then Some(d)
      else match DigitsValue(if p[|p| - 1] == '_' then p[..|p| - 1] else p)
        case Some(v) => Some(10 * v + d)
        case None => None
  }

  /** `int(s)`, with None for ValueError. */
  function ParseInt(s: string): Option<int> {
    var t := Strip(s);
    if t == "" then None
    else match DigitsValue(if t[0] in "+-" then t[1..] else t)
      case Some(v) => Some(if t[0] == '-' then -v else v)
      case None => None
  }

  lemma {:induction false} DigitsValueDecimal(n: nat)
    ensures DigitsValue(Decimal(n)) == Some(n)
  {
    if n >= 10 {
      DigitsValueDecimal(n / 10);
      var b, p := Decimal(n), Decimal(n / 10);
      assert b[..|b| - 1] == p;
      assert IsDigit(p[|p| - 1]);
    } else {
      var b := Decimal(n);
      assert b[..|b| - 1] == "";
    }
  }

  lemma ParseDecimal(n: nat)
    ensures ParseInt(Decimal(n)) == Some(n)
  {
    var b := Decimal(n);
    DigitsValueDecimal(n);
    assert IsDigit(b[0]) && IsDigit(b[|b| - 1]);
    StripFixes(b);
  }

  lemma ParseMinus(s: string, n: int)
    requires |s| > 1 && s[0] == '-' && Trimmed(s) && DigitsValue(s[1..]) == Some(n)
    ensures ParseInt(s) == Some(-n)
  {
    StripFixes(s);
  }

  lemma MinusInFront(s: string, digits: string)
    requires s == "-" + digits && digits != "" && IsDigit(digits[|digits| - 1])
    ensures |s| > 1 && s[0] == '-' && Trimmed(s) && s[1..] == digits
  {
    assert s[|s| - 1] == digits[|digits| - 1];
  }

  /** What is printed is read back. */
  lemma ParseSignedDecimal(n: int)
    ensures ParseInt(SignedDecimal(n)) == Some(n)
  {
    if n < 0 {
      DigitsValueDecimal(-n);
      MinusInFront(SignedDecimal(n), Decimal(-n));
      ParseMinus(SignedDecimal(n), -n);
    } else {
      ParseDecimal(n);
    }
  }

  lemma SignedDecimalOneLine(n: int)
    ensures OneLine(SignedDecimal(n))
  {
    if n < 0 {
      assert forall i :: 0 < i < |SignedDecimal(n)| ==> SignedDecimal(n)[i] == Decimal(-n)[i - 1];
    }
  }

  lemma DecimalInjective(m: nat, n: nat)
    requires Decimal(m) == Decimal(n)
    ensures m == n
  {
    DigitsValueDecimal(m);
    DigitsValueDecimal(n);
  }

  // ---------- what int(...) accepts besides ----------

  /** A character that stands nowhere in a number. */
  predicate NotInNumber(c: char) { !IsDigit(c) && c != '_' && c != '+' && c != '-' }

  lemma {:induction false} NotDigits(b: string, i: nat)
    requires i < |b| && !IsDigit(b[i]) && b[i] != '_'
    ensures DigitsValue(b) == None
    decreases |b|
  {
    var n := |b| - 1;
    if IsDigit(b[n]) {
      var p := b[..n];
      assert i < n && p[i] == b[i];
      if p[n - 1] == '_' {
        assert p[..n - 1][i] == b[i];
        NotDigits(p[..n - 1], i);
      } else {
        NotDigits(p, i);
      }
    }
  }

  /** A text with such a character inside is no number. */
  lemma NotANumber(s: string, i: nat)
    requires i < |Strip(s)| && NotInNumber(Strip(s)[i])
    ensures ParseInt(s) == None
  {
    var t := Strip(s);
    if t[0] in "+-" {
      assert t[1..][i - 1] == t[i];
      NotDigits(t[1..], i - 1);
    } else {
      NotDigits(t, i);
    }
  }

  /** What stands before the last digit and the underscore that may go with it. */
  function BeforeLast(s: string): string
    requires |s| > 1
  {
    var p := s[..|s| - 1];
    if p[|p| - 1] == '_' then p[..|p| - 1] else p
  }

  lemma BeforeLastIs(s: string, b: string, c: char)
    requires b != "" && b[|b| - 1] != '_' && (s == b + [c] || s == b + ['_'] + [c])
    ensures |s| > 1 && BeforeLast(s) == b && s[|s| - 1] == c
  {
    var p := s[..|s| - 1];
    if s == b + [c] {
      assert p == b;
    } else {
      assert p == b + ['_'] && p[..|b|] == b;
    }
  }

  lemma LastDigit(s: string, b: string, c: char)
    requires b != "" && IsDigit(c) && IsDigit(b[|b| - 1]) && (s == b + [c] || s == b + "_" + [c])
    ensures DigitsValue(s) ==
      match DigitsValue(b) case Some(v) => Some(10 * v + (c as int - '0' as int)) case None => None
  {
    BeforeLastIs(s, b, c);
  }

  /** A digit more is ten times the number and the digit, and an underscore between two digits counts for
      nothing. */
  lemma MoreDigits(b: string, c: char)
    requires b != "" && Trimmed(b) && IsDigit(b[0]) && IsDigit(b[|b| - 1]) && IsDigit(c)
    ensures ParseInt(b + [c]) == ParseInt(b + "_" + [c])
    ensures ParseInt(b).Some? ==> ParseInt(b + [c]) == Some(10 * ParseInt(b).value + (c as int - '0' as int))
  {
    UnsignedNumber(b);
    UnsignedNumber(b + [c]);
    UnsignedNumber(b + "_" + [c]);
    LastDigit(b + [c], b, c);
    LastDigit(b + "_" + [c], b, c);
  }

  lemma UnsignedNumber(s: string)
    requires s != "" && Trimmed(s) && IsDigit(s[0])
    ensures ParseInt(s) == DigitsValue(s)
  {
    StripFixes(s);
  }

  /** Carriage return and newline together end one line, and any boundary alone does. */
  lemma SplitAtBreak(line: string, rest: string, c: char)
    requires OneLine(line) && IsLineBreak(c)
    ensures SplitLines(line + "\r\n" + rest) == [line] + SplitLines(rest)
    ensures c != '\r' || rest == "" || rest[0] != '\n' ==> SplitLines(line + [c] + rest) == [line] + SplitLines(rest)
  {
    var both, one := line + "\r\n" + rest, line + [c] + rest;
    BreakIsAt(both, |line|);
    BreakIsAt(one, |line|);
    assert both[..|line|] == line && both[|line| + 2..] == rest;
    assert one[..|line|] == line && one[|line| + 1..] == rest;
  }

  lemma {:induction false} BreakIsAt(text: string, k: nat)
    requires k < |text| && OneLine(text[..k]) && IsLineBreak(text[k])
    ensures BreakAt(text) == k
  {
    if k > 0 {
      assert text[0] == text[..k][0];
      assert text[1..][..k - 1] == text[..k][1..] && text[1..][k - 1] == text[k];
      BreakIsAt(text[1..], k - 1);
    }
  }
}
