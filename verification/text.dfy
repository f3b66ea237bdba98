/** Character classes and the small string operations the assembler relies on:
    splitting source text into lines and words, dropping comments, the token
    shapes the lexer accepts, decimal conversion and ASCII lower-casing. */
module Text {

  /** The characters the regular-expression class `\s` matches. */
  predicate IsWhite(c: char) {
    || c == ' ' || c == '\t' || c == '\n' || c == '\U{000B}' || c == '\U{000C}' || c == '\r'
    || c == '\U{00A0}' || c == '\U{1680}' || ('\U{2000}' <= c <= '\U{200A}')
    || c == '\U{2028}' || c == '\U{2029}' || c == '\U{202F}' || c == '\U{205F}'
    || c == '\U{3000}' || c == '\U{FEFF}'
  }

  predicate IsDigit(c: char) { '0' <= c <= '9' }

  predicate IsLetter(c: char) { 'a' <= c <= 'z' || 'A' <= c <= 'Z' }

  predicate IsIdentStart(c: char) { IsLetter(c) || c == '_' }

  predicate IsIdentChar(c: char) { IsIdentStart(c) || IsDigit(c) }

  /** The shape `[0-9]+`. */
  predicate IsDigits(s: string) {
    |s| > 0 && forall i :: 0 <= i < |s| ==> IsDigit(s[i])
  }

  /** The shape `[-+]?[0-9]+`. */
  predicate IsIntegerText(s: string) {
    IsDigits(s) || (|s| > 0 && (s[0] == '-' || s[0] == '+') && IsDigits(s[1..]))
  }

  /** The shape `[_a-zA-Z][_a-zA-Z0-9]*`. */
  predicate IsIdentifier(s: string) {
    |s| > 0 && IsIdentStart(s[0]) && forall i :: 1 <= i < |s| ==> IsIdentChar(s[i])
  }

  function DigitValue(c: char): (d: nat)
    requires IsDigit(c)
    ensures d < 10
  {
    (c as int) - ('0' as int)
  }

  function DigitChar(d: nat): (c: char)
    requires d < 10
    ensures IsDigit(c) && DigitValue(c) == d
  {
    (('0' as int) + d) as char
  }

  /** The value of a string of decimal digits, most significant digit first. */
  function DigitsValue(s: string): nat
    requires forall i :: 0 <= i < |s| ==> IsDigit(s[i])
  {
    if s == [] then 0 else DigitsValue(s[..|s| - 1]) * 10 + DigitValue(s[|s| - 1])
  }

  /** What `parseInt` yields for a string of the shape `[-+]?[0-9]+`. */
  function IntegerValue(s: string): (v: int)
    requires IsIntegerText(s)
    ensures s[0] == '-' ==> v <= 0
    ensures s[0] != '-' ==> v >= 0
  {
    if IsDigits(s) then DigitsValue(s)
    else if s[0] == '-' then -(DigitsValue(s[1..]) as int)
    else DigitsValue(s[1..])
  }

  /** The decimal notation of a natural number, without leading zeros. */
  function DecimalString(n: nat): (s: string)
    ensures IsDigits(s)
    ensures n < 10 <==> |s| == 1
    decreases n
  {
    if n < 10 then [DigitChar(n)] else DecimalString(n / 10) + [DigitChar(n % 10)]
  }

  lemma {:induction false} DecimalStringValue(n: nat)
    ensures DigitsValue(DecimalString(n)) == n
    decreases n
  {
    var s := DecimalString(n);
    if n >= 10 {
      DecimalStringValue(n / 10);
      assert s[..|s| - 1] == DecimalString(n / 10);
    }
  }

  /** Leading zeros do not change the value of a digit string. */
  lemma {:induction false} LeadingZeros(k: nat, s: string)
    requires forall i :: 0 <= i < |s| ==> IsDigit(s[i])
    ensures forall i :: 0 <= i < |Repeat('0', k) + s| ==> IsDigit((Repeat('0', k) + s)[i])
    ensures DigitsValue(Repeat('0', k) + s) == DigitsValue(s)
    decreases |s|
  {
    var t := Repeat('0', k) + s;
    assert forall i :: 0 <= i < |t| ==> IsDigit(t[i]) by {
      forall i | 0 <= i < |t| ensures IsDigit(t[i]) {
        if i < k { assert t[i] == Repeat('0', k)[i]; } else { assert t[i] == s[i - k]; }
      }
    }
    if s == [] {
      assert t == Repeat('0', k);
      AllZeros(k);
    } else {
      LeadingZeros(k, s[..|s| - 1]);
      assert t[..|t| - 1] == Repeat('0', k) + s[..|s| - 1];
    }
  }

  lemma {:induction false} AllZeros(k: nat)
    ensures DigitsValue(Repeat('0', k)) == 0
  {
    if k > 0 {
      var r := Repeat('0', k);
      assert r[..k - 1] == Repeat('0', k - 1);
      AllZeros(k - 1);
      assert DigitValue(r[k - 1]) == 0;
    }
  }

  /** `k` copies of the character `c`. */
  function Repeat(c: char, k: nat): (s: string)
    ensures |s| == k
    ensures forall i :: 0 <= i < k ==> s[i] == c
  {
    if k == 0 then [] else Repeat(c, k - 1) + [c]
  }

  /** `s.padStart(width, c)`: `s` behind as many copies of `c` as make it `width` long. */
  function PadStart(s: string, width: nat, c: char): (r: string)
    ensures |r| == if |s| < width then width else |s|
    ensures r[|r| - |s|..] == s
    ensures forall i :: 0 <= i < |r| - |s| ==> r[i] == c
  {
    if |s| < width then Repeat(c, width - |s|) + s else s
  }

  /** ASCII lower-casing (`toLowerCase` on the strings the lexer admits). */
  function LowerChar(c: char): (d: char)
    ensures 'A' <= c <= 'Z' ==> 'a' <= d <= 'z'
    ensures !('A' <= c <= 'Z') ==> d == c
  {
    if 'A' <= c <= 'Z' then (c as int + 32) as char else c
  }

  function ToLower(s: string): (r: string)
    ensures |r| == |s|
    ensures forall i :: 0 <= i < |s| ==> r[i] == LowerChar(s[i])
  {
    seq(|s|, i requires 0 <= i < |s| => LowerChar(s[i]))
  }

  predicate IsLower(s: string) {
    forall i :: 0 <= i < |s| ==> !('A' <= s[i] <= 'Z')
  }

  /** Lower-casing keeps the identifier shape, is idempotent and leaves lower-case text alone. */
  lemma ToLowerFacts(s: string)
    ensures IsLower(ToLower(s))
    ensures ToLower(ToLower(s)) == ToLower(s)
    ensures IsLower(s) ==> ToLower(s) == s
    ensures IsIdentifier(s) ==> IsIdentifier(ToLower(s))
  {
  }

  // ---------------------------------------------------------------------------
  // Comments, lines and words

  /** `line.split(";")[0]`: the text in front of the first semicolon. */
  function BeforeComment(line: string): (r: string)
    ensures |r| <= |line| && r == line[..|r|]
    ensures ';' !in r
    ensures |r| < |line| ==> line[|r|] == ';'
  {
    if line == [] then []
    else if line[0] == ';' then []
    else [line[0]] + BeforeComment(line[1..])
  }

  /** The text before the first `;` of `a;b` is `a`, as it is of `a` alone. */
  lemma CommentCut(a: string, b: string)
    requires ';' !in a
    ensures BeforeComment(a + ";" + b) == a
    ensures BeforeComment(a) == a
  {
    var t := a + ";" + b;
    assert t[..|a|] == a && t[|a|] == ';';
  }

  /** The number of occurrences of `c` in `s`. */
  function Count(c: char, s: string): nat {
    if s == [] then 0 else (if s[0] == c then 1 else 0) + Count(c, s[1..])
  }

  /** The position of the first line feed, if any. */
  function FirstNewline(s: string): (r: int)
    ensures -1 <= r < |s|
    ensures r == -1 ==> '\n' !in s
    ensures r >= 0 ==> s[r] == '\n' && '\n' !in s[..r]
  {
    if s == [] then -1
    else if s[0] == '\n' then 0
    else var k := FirstNewline(s[1..]); if k < 0 then -1 else k + 1
  }

  /** `code.split(/\r?\n/)`: a line feed ends a line, and a carriage return right
      in front of it is dropped with it. The last line is whatever follows the
      last line feed, possibly empty. */
  function Lines(code: string): (r: seq<string>)
    ensures |r| > 0
    ensures forall i :: 0 <= i < |r| ==> '\n' !in r[i]
    decreases |code|
  {
    var k := FirstNewline(code);
    if k < 0 then [code]
    else
      var cut := if k > 0 && code[k - 1] == '\r' then k - 1 else k;
      assert '\n' !in code[..cut] by { assert code[..cut] == code[..k][..cut]; }
      [code[..cut]] + Lines(code[k + 1..])
  }

  /** There is one line more than there are line feeds. */
  lemma {:induction false} LinesCount(code: string)
    ensures |Lines(code)| == Count('\n', code) + 1
    decreases |code|
  {
    var k := FirstNewline(code);
    if k < 0 {
      NoCount('\n', code);
    } else {
      LinesCount(code[k + 1..]);
      CountSplit('\n', code, k);
    }
  }

  lemma {:induction false} NoCount(c: char, s: string)
    requires c !in s
    ensures Count(c, s) == 0
  {
    if s != [] {
      NoCount(c, s[1..]);
    }
  }

  /** Counting across the first occurrence of `c` at position `k`. */
  lemma {:induction false} CountSplit(c: char, s: string, k: int)
    requires 0 <= k < |s| && s[k] == c && c !in s[..k]
    ensures Count(c, s) == Count(c, s[k + 1..]) + 1
  {
    if k > 0 {
      assert s[1..][..k - 1] == s[..k][1..];
      CountSplit(c, s[1..], k - 1);
      assert s[1..][k..] == s[k + 1..];
    }
  }

  /** The length of the leading run of non-white characters. */
  function WordLength(s: string): (n: nat)
    ensures n <= |s|
    ensures forall i :: 0 <= i < n ==> !IsWhite(s[i])
    ensures n < |s| ==> IsWhite(s[n])
  {
    if s == [] || IsWhite(s[0]) then 0 else 1 + WordLength(s[1..])
  }

  /** `line.split(/\s/).filter(x => x !== "")`: the maximal runs of non-white characters, in order. */
  function Words(s: string): (r: seq<string>)
    ensures forall i :: 0 <= i < |r| ==> |r[i]| > 0 && forall j :: 0 <= j < |r[i]| ==> !IsWhite(r[i][j])
    decreases |s|
  {
    if s == [] then []
    else if IsWhite(s[0]) then Words(s[1..])
    else
      var n := WordLength(s);
      [s[..n]] + Words(s[n..])
  }

  /** The characters of `s` that are not white, in order. */
  function NonWhite(s: string): string {
    if s == [] then [] else (if IsWhite(s[0]) then [] else [s[0]]) + NonWhite(s[1..])
  }

  function Concat(ws: seq<string>): string {
    if ws == [] then [] else ws[0] + Concat(ws[1..])
  }

  /** Splitting into words loses exactly the white characters. */
  lemma {:induction false} WordsKeepText(s: string)
    ensures Concat(Words(s)) == NonWhite(s)
    decreases |s|
  {
    if s != [] {
      if IsWhite(s[0]) {
        WordsKeepText(s[1..]);
      } else {
        var n := WordLength(s);
        WordsKeepText(s[n..]);
        NonWhiteSplit(s, n);
        var w := Words(s);
        assert w[0] == s[..n] && w[1..] == Words(s[n..]);
      }
    }
  }

  /** A leading run of non-white characters survives `NonWhite` unchanged. */
  lemma {:induction false} NonWhiteSplit(s: string, n: nat)
    requires n <= |s|
    requires forall i :: 0 <= i < n ==> !IsWhite(s[i])
    ensures NonWhite(s) == s[..n] + NonWhite(s[n..])
  {
    if n > 0 {
      NonWhiteSplit(s[1..], n - 1);
      assert s[1..][n - 1..] == s[n..];
      assert s[..n] == [s[0]] + s[1..][..n - 1];
    }
  }

  /** A string without white characters is a single word, or none if empty. */
  lemma {:induction false} WordsOfWord(s: string)
    requires forall i :: 0 <= i < |s| ==> !IsWhite(s[i])
    ensures Words(s) == if s == [] then [] else [s]
  {
    if s != [] {
      assert WordLength(s) == |s| by { WordLengthAll(s); }
      assert s[|s|..] == [] && s[..|s|] == s;
    }
  }

  lemma {:induction false} WordLengthAll(s: string)
    requires forall i :: 0 <= i < |s| ==> !IsWhite(s[i])
    ensures WordLength(s) == |s|
  {
    if s != [] {
      WordLengthAll(s[1..]);
    }
  }

  /** A white character separates the words in front of it from those behind it. */
  lemma {:induction false} WordsSplit(a: string, c: char, b: string)
    requires IsWhite(c)
    ensures Words(a + [c] + b) == Words(a) + Words(b)
    decreases |a|
  {
    var s := a + [c] + b;
    if a == [] {
      assert s[1..] == b;
    } else if IsWhite(a[0]) {
      assert s[1..] == a[1..] + [c] + b;
      WordsSplit(a[1..], c, b);
    } else {
      var n := WordLength(a);
      WordLengthPrefix(a, [c] + b);
      assert a + [c] + b == a + ([c] + b);
      assert WordLength(s) == n;
      assert s[..n] == a[..n];
      if n == |a| {
        assert s[n..] == [c] + b;
        assert Words(s[n..]) == Words(b) by { assert s[n..][1..] == b; }
        assert a[n..] == [];
      } else {
        assert s[n..] == a[n..] + [c] + b;
        WordsSplit(a[n..], c, b);
      }
    }
  }

  /** The leading word of `a` is unchanged by appending text that starts white. */
  lemma {:induction false} WordLengthPrefix(a: string, t: string)
    requires |t| > 0 && IsWhite(t[0])
    ensures WordLength(a + t) == WordLength(a)
  {
    if a != [] && !IsWhite(a[0]) {
      assert (a + t)[1..] == a[1..] + t;
      WordLengthPrefix(a[1..], t);
    } else if a == [] {
      assert a + t == t;
    }
  }
}
