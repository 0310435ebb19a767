/**
 * The string operations the program relies on: ASCII models of Python's
 * `str.lower()` and `str.strip()`, `str.rstrip('/')`, the single-quote escape
 * used for the re-encode scripts, and `str(int)` for building endpoints.
 */
module Text {

  import opened Wrappers
  import opened Folds

  /** Python's whitespace among the ASCII characters (what `str.strip()` removes). */
  predicate IsSpace(c: char) {
    c == ' ' || c == '\t' || c == '\n' || c == '\r' || c == '\U{B}' || c == '\U{C}'
    || ('\U{1C}' <= c <= '\U{1F}')
  }

  function LowerChar(c: char): char {
    if 'A' <= c <= 'Z' then (c as int + 32) as char else c
  }

  /** ASCII `str.lower()`: every upper-case letter becomes its lower-case letter, nothing else changes. */
  function Lower(s: string): (r: string)
    ensures |r| == |s|
    ensures forall i :: 0 <= i < |s| ==> r[i] == LowerChar(s[i])
  {
    if s == [] then [] else [LowerChar(s[0])] + Lower(s[1..])
  }

  /** Python's `lstrip()`: drops the leading run of whitespace. */
  function StripLeft(s: string): (r: string)
    ensures |r| <= |s| && r == s[|s| - |r|..]
    ensures forall i :: 0 <= i < |s| - |r| ==> IsSpace(s[i])
    ensures r != [] ==> !IsSpace(r[0])
  {
    if s != [] && IsSpace(s[0]) then StripLeft(s[1..]) else s
  }

  /** Python's `rstrip()`: drops the trailing run of whitespace. */
  function StripRight(s: string): (r: string)
    ensures |r| <= |s| && r == s[..|r|]
    ensures forall i :: |r| <= i < |s| ==> IsSpace(s[i])
    ensures r != [] ==> !IsSpace(r[|r| - 1])
  {
    if s != [] && IsSpace(s[|s| - 1]) then StripRight(s[..|s| - 1]) else s
  }

  predicate AllSpace(s: string) {
    forall i :: 0 <= i < |s| ==> IsSpace(s[i])
  }

  /** A suffix `l` of `s` and a prefix `r` of `l` cut `s` into three pieces; the outer ones are whitespace when `s` and `l` say so. */
  lemma SplitAround(s: string, l: string, r: string)
    requires |l| <= |s| && l == s[|s| - |l|..] && |r| <= |l| && r == l[..|r|]
    requires forall i :: 0 <= i < |s| - |l| ==> IsSpace(s[i])
    requires forall i :: |r| <= i < |l| ==> IsSpace(l[i])
    ensures s == s[..|s| - |l|] + r + l[|r|..]
    ensures AllSpace(s[..|s| - |l|]) && AllSpace(l[|r|..])
  {
    var k := |s| - |l|;
    var pre, post := s[..k], l[|r|..];
    assert s == pre + l;
    assert l == r + post;
    assert pre + (r + post) == (pre + r) + post;
    assert AllSpace(pre) by {
      forall i | 0 <= i < |pre| ensures IsSpace(pre[i]) {
        assert pre[i] == s[i];
      }
    }
    assert AllSpace(post) by {
      forall i | 0 <= i < |post| ensures IsSpace(post[i]) {
        assert post[i] == l[|r| + i];
      }
    }
  }

  /** Python's `strip()`: `s` is whitespace, then the result, then whitespace, and the result neither starts nor ends with whitespace. */
  function Strip(s: string): (r: string)
    ensures exists pre, post :: s == pre + r + post && AllSpace(pre) && AllSpace(post)
    ensures r != [] ==> !IsSpace(r[0]) && !IsSpace(r[|r| - 1])
  {
    var l := StripLeft(s);
    var r := StripRight(l);
    SplitAround(s, l, r);
    var pre, post := s[..|s| - |l|], l[|r|..];
    assert s == pre + r + post && AllSpace(pre) && AllSpace(post);
    r
  }

  /** Python's `s.rstrip(c)` for one character `c`: `s` is the result followed by copies of `c` only. */
  function TrimTrailing(s: string, c: char): (r: string)
    ensures |r| <= |s| && r == s[..|r|]
    ensures forall i :: |r| <= i < |s| ==> s[i] == c
    ensures r == [] || r[|r| - 1] != c
  {
    if s != [] && s[|s| - 1] == c then TrimTrailing(s[..|s| - 1], c) else s
  }

  function QuoteEscape(c: char): string {
    if c == '\'' then "'\\''" else [c]
  }

  /**
   * `path.replace("'", "'\\''")`: each single quote becomes the four characters
   * quote, backslash, quote, quote; every other character is kept.
   */
  function ShellEscape(s: string): (r: string)
    ensures '\'' !in s ==> r == s
    ensures |r| >= |s|
  {
    if s == [] then [] else QuoteEscape(s[0]) + ShellEscape(s[1..])
  }

  lemma {:induction false} ShellEscapeConcat(a: string, b: string)
    ensures ShellEscape(a + b) == ShellEscape(a) + ShellEscape(b)
  {
    if a == [] {
      assert a + b == b;
    } else {
      assert (a + b)[0] == a[0];
      assert (a + b)[1..] == a[1..] + b;
      ShellEscapeConcat(a[1..], b);
    }
  }

  function Prepend(c: char, o: Option<string>): Option<string> {
    match o
    case Some(v) => Some([c] + v)
    case None => None
  }

  /**
   * How a POSIX shell decodes one word built from single-quoted runs and
   * backslash escapes; anything else outside quotes, or an unterminated
   * quote, is outside this grammar (None).
   */
  function ShellWord(w: string, quoted: bool): Option<string>
    decreases |w|
  {
    if w == [] then (if quoted then None else Some([]))
    else if quoted then
      if w[0] == '\'' then ShellWord(w[1..], false) else Prepend(w[0], ShellWord(w[1..], true))
    else if w[0] == '\'' then ShellWord(w[1..], true)
    else if w[0] == '\\' && |w| >= 2 then Prepend(w[1], ShellWord(w[2..], false))
    else None
  }

  function PrependAll(s: string, o: Option<string>): Option<string> {
    match o
    case Some(v) => Some(s + v)
    case None => None
  }

  /** Inside quotes, the escape of one quote closes the quote, emits a literal quote and reopens it. */
  lemma DecodeEscapedQuote(tail: string)
    ensures ShellWord("'\\''" + tail, true) == Prepend('\'', ShellWord(tail, true))
  {
    var w := "'\\''" + tail;
    assert w[0] == '\'' && w[1..][0] == '\\' && w[1..][1] == '\'' && w[1..][2..][0] == '\'';
    assert w[1..][2..][1..] == tail;
    assert ShellWord(w[1..][2..], false) == ShellWord(tail, true);
    assert ShellWord(w[1..], false) == Prepend('\'', ShellWord(tail, true));
  }

  lemma PrependAllCons(s: string, o: Option<string>)
    requires s != []
    ensures Prepend(s[0], PrependAll(s[1..], o)) == PrependAll(s, o)
  {
    if o.Some? {
      assert [s[0]] + (s[1..] + o.value) == s + o.value;
    }
  }

  /** Decoding the escape of one character, inside quotes, yields that character. */
  lemma DecodeOne(c: char, tail: string)
    ensures ShellWord(QuoteEscape(c) + tail, true) == Prepend(c, ShellWord(tail, true))
  {
    if c == '\'' {
      DecodeEscapedQuote(tail);
    } else {
      var w := [c] + tail;
      assert w[0] == c && w[1..] == tail;
    }
  }

  lemma EscapeCons(s: string, rest: string)
    requires s != []
    ensures ShellEscape(s) + rest == QuoteEscape(s[0]) + (ShellEscape(s[1..]) + rest)
  {
    var q, t := QuoteEscape(s[0]), ShellEscape(s[1..]);
    assert ShellEscape(s) == q + t;
    ConcatAssoc(q, t, rest);
  }

  lemma {:induction false} DecodeEscaped(s: string, rest: string)
    ensures ShellWord(ShellEscape(s) + rest, true) == PrependAll(s, ShellWord(rest, true))
  {
    if s == [] {
      assert ShellEscape(s) + rest == rest;
      if ShellWord(rest, true).Some? {
        assert s + ShellWord(rest, true).value == ShellWord(rest, true).value;
      }
    } else {
      var tail := ShellEscape(s[1..]) + rest;
      EscapeCons(s, rest);
      DecodeOne(s[0], tail);
      DecodeEscaped(s[1..], rest);
      PrependAllCons(s, ShellWord(rest, true));
    }
  }

  /**
   * In the single-quoted assignment `INPUT_FILE='...'` of the scripts, the
   * escaped path is read back by the shell as exactly the original path.
   */
  lemma ShellEscapeRoundTrip(s: string)
    ensures ShellWord("'" + ShellEscape(s) + "'", false) == Some(s)
  {
    var w := "'" + ShellEscape(s) + "'";
    assert w[1..] == ShellEscape(s) + "'";
    DecodeEscaped(s, "'");
    assert "'"[1..] == [];
    assert ShellWord("'", true) == Some([]);
    assert ShellWord(w, false) == ShellWord(w[1..], true);
    assert s + [] == s;
  }

  function DigitChar(d: nat): char
    requires d < 10
  {
    "0123456789"[d]
  }

  function DigitValue(c: char): int {
    c as int - '0' as int
  }

  /** The number a string of decimal digits denotes. */
  function DecimalValue(s: string): int {
    if s == [] then 0 else DecimalValue(s[..|s| - 1]) * 10 + DigitValue(s[|s| - 1])
  }

  /** Python's `str(n)` for a natural number: digits only, no leading zero, denoting `n`. */
  function NatToString(n: nat): (r: string)
    ensures r != [] && (forall i :: 0 <= i < |r| ==> '0' <= r[i] <= '9')
    ensures |r| > 1 ==> r[0] != '0'
    ensures DecimalValue(r) == n
  {
    if n < 10 then [DigitChar(n)]
    else
      var r := NatToString(n / 10) + [DigitChar(n % 10)];
      assert r[..|r| - 1] == NatToString(n / 10);
      r
  }

  /**
   * Python's `str(n)` for any integer: decimal digits without a leading zero
   * denoting `n`, after a minus sign when `n` is negative.
   */
  function IntToString(n: int): (r: string)
    ensures n >= 0 ==> r != [] && (forall i :: 0 <= i < |r| ==> '0' <= r[i] <= '9')
                       && (|r| > 1 ==> r[0] != '0') && DecimalValue(r) == n
    ensures n < 0 ==> |r| >= 2 && r[0] == '-' && (forall i :: 1 <= i < |r| ==> '0' <= r[i] <= '9')
                      && (|r| > 2 ==> r[1] != '0') && DecimalValue(r[1..]) == -n
  {
    if n >= 0 then NatToString(n)
    else
      var digits := NatToString(-n);
      assert ("-" + digits)[1..] == digits;
      "-" + digits
  }

  /** A leading zero does not change the number a digit string denotes. */
  lemma {:induction false} LeadingZero(s: string)
    ensures DecimalValue("0" + s) == DecimalValue(s)
  {
    if s != [] {
      assert ("0" + s)[..|"0" + s| - 1] == "0" + s[..|s| - 1];
      LeadingZero(s[..|s| - 1]);
    }
  }

  /**
   * Python's `f"{n:0{width}d}"` for a natural number: its decimal digits,
   * left-padded with zeros to at least `width` characters.
   */
  function ZeroPad(n: nat, width: nat): (r: string)
    ensures |r| == if width > |NatToString(n)| then width else |NatToString(n)|
    ensures forall i :: 0 <= i < |r| ==> '0' <= r[i] <= '9'
    ensures DecimalValue(r) == n
    decreases width
  {
    var d := NatToString(n);
    if |d| >= width then d
    else
      var rest := ZeroPad(n, width - 1);
      LeadingZero(rest);
      "0" + rest
  }

  /** `f"{n:0{width}d}"` for any integer: the sign comes first and counts towards the width. */
  function PadInt(n: int, width: nat): (r: string)
    ensures |r| >= width
    ensures n >= 0 ==> r == ZeroPad(n, width)
    ensures n < 0 ==> r != [] && r[0] == '-' && DecimalValue(r[1..]) == -n
  {
    if n >= 0 then ZeroPad(n, width)
    else
      var digits := ZeroPad(-n, if width > 0 then width - 1 else 0);
      assert ("-" + digits)[1..] == digits;
      "-" + digits
  }
}
