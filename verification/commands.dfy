/**
 * The two library routines the command dispatcher relies on: `strings.Fields`,
 * which splits a line into its words around runs of white space, and
 * `strconv.Atoi`, which reads a signed decimal integer that must fit in a Go
 * `int` (64 bits). Both work here on a line already decoded into characters.
 */
module Commands {
  import opened Wrappers

  /** `unicode.IsSpace`: the Latin-1 spaces and the other Unicode White_Space characters. */
  predicate IsSpace(c: char) {
    || c == '\t' || c == '\n' || c == '\U{000B}' || c == '\U{000C}' || c == '\r' || c == ' '
    || c == '\U{0085}' || c == '\U{00A0}' || c == '\U{1680}'
    || ('\U{2000}' <= c <= '\U{200A}')
    || c == '\U{2028}' || c == '\U{2029}' || c == '\U{202F}' || c == '\U{205F}' || c == '\U{3000}'
  }

  /** A word: a non-empty run of characters none of which is a space. */
  predicate IsWord(w: string) {
    |w| > 0 && forall i :: 0 <= i < |w| ==> !IsSpace(w[i])
  }

  /** The length of the word at the start of `s` (zero if `s` starts with a space). */
  function WordSpan(s: string): (n: nat)
    ensures n <= |s|
    ensures forall i :: 0 <= i < n ==> !IsSpace(s[i])
    ensures n < |s| ==> IsSpace(s[n])
    decreases |s|
  {
    if |s| == 0 || IsSpace(s[0]) then 0 else 1 + WordSpan(s[1..])
  }

  /** `strings.Fields`: the words of `s`, in order. */
  function Fields(s: string): (r: seq<string>)
    ensures forall i :: 0 <= i < |r| ==> IsWord(r[i])
    decreases |s|
  {
    if |s| == 0 then []
    else if IsSpace(s[0]) then Fields(s[1..])
    else
      var n := WordSpan(s);
      [s[..n]] + Fields(s[n..])
  }

  /** The words written out with one space between neighbours. */
  function Unwords(ws: seq<string>): string
    decreases |ws|
  {
    if |ws| == 0 then "" else if |ws| == 1 then ws[0] else ws[0] + " " + Unwords(ws[1..])
  }

  /** The word at the front of `w + t` is `w` when `t` is empty or starts with a space. */
  lemma {:induction false} WordSpanOfWord(w: string, t: string)
    requires forall i :: 0 <= i < |w| ==> !IsSpace(w[i])
    requires |t| == 0 || IsSpace(t[0])
    ensures WordSpan(w + t) == |w|
    decreases |w|
  {
    if |w| > 0 {
      assert (w + t)[1..] == w[1..] + t;
      WordSpanOfWord(w[1..], t);
    } else {
      assert w + t == t;
    }
  }

  /** A line of nothing but white space has no fields. */
  lemma {:induction false} FieldsOfBlank(s: string)
    requires forall i :: 0 <= i < |s| ==> IsSpace(s[i])
    ensures Fields(s) == []
    decreases |s|
  {
    if |s| > 0 {
      FieldsOfBlank(s[1..]);
    }
  }

  /** Text after the first word does not move that word's end, unless the word runs to the end of `s`. */
  lemma {:induction false} WordSpanAppend(s: string, u: string)
    requires WordSpan(s) < |s| || |u| == 0 || IsSpace(u[0])
    ensures WordSpan(s + u) == WordSpan(s)
    decreases |s|
  {
    if |s| == 0 {
      assert s + u == u;
    } else if !IsSpace(s[0]) {
      assert (s + u)[1..] == s[1..] + u;
      WordSpanAppend(s[1..], u);
    }
  }

  /** A white-space character splits the fields: those before it, then those after it. */
  lemma {:induction false} FieldsSplit(s: string, c: char, t: string)
    requires IsSpace(c)
    ensures Fields(s + [c] + t) == Fields(s) + Fields(t)
    decreases |s|
  {
    var x := s + [c] + t;
    if |s| == 0 {
      assert x == [c] + t && x[1..] == t;
    } else if IsSpace(s[0]) {
      assert x[1..] == s[1..] + [c] + t;
      FieldsSplit(s[1..], c, t);
    } else {
      FieldsSplit(s[WordSpan(s)..], c, t);
      FieldsSplitWord(s, c, t);
    }
  }

  /** The step of `FieldsSplit` past a word at the front of `s`, given the split of what follows it. */
  lemma FieldsSplitWord(s: string, c: char, t: string)
    requires IsSpace(c) && |s| > 0 && !IsSpace(s[0])
    requires Fields(s[WordSpan(s)..] + [c] + t) == Fields(s[WordSpan(s)..]) + Fields(t)
    ensures Fields(s + [c] + t) == Fields(s) + Fields(t)
  {
    var x := s + [c] + t;
    var k := WordSpan(s);
    assert x == s + ([c] + t);
    WordSpanAppend(s, [c] + t);
    assert x[..k] == s[..k];
    assert x[k..] == s[k..] + [c] + t;
  }

  /** White space after a line does not change its fields. */
  lemma FieldsTrailing(s: string, post: string)
    requires forall i :: 0 <= i < |post| ==> IsSpace(post[i])
    ensures Fields(s + post) == Fields(s)
  {
    if |post| > 0 {
      assert s + post == s + [post[0]] + post[1..];
      FieldsSplit(s, post[0], post[1..]);
      FieldsOfBlank(post[1..]);
    } else {
      assert s + post == s;
    }
  }

  /** White space before a line does not change its fields. */
  lemma FieldsLeading(pre: string, s: string)
    requires forall i :: 0 <= i < |pre| ==> IsSpace(pre[i])
    ensures Fields(pre + s) == Fields(s)
  {
    if |pre| > 0 {
      var k := |pre| - 1;
      assert pre + s == pre[..k] + [pre[k]] + s;
      FieldsSplit(pre[..k], pre[k], s);
      FieldsOfBlank(pre[..k]);
    } else {
      assert pre + s == s;
    }
  }

  /** White space before and after a line does not change its fields. */
  lemma FieldsPadded(pre: string, s: string, post: string)
    requires forall i :: 0 <= i < |pre| ==> IsSpace(pre[i])
    requires forall i :: 0 <= i < |post| ==> IsSpace(post[i])
    ensures Fields(pre + s + post) == Fields(s)
  {
    assert pre + s + post == pre + (s + post);
    FieldsLeading(pre, s + post);
    FieldsTrailing(s, post);
  }

  /** Splitting words joined by single spaces gives the words back. */
  lemma {:induction false} FieldsOfUnwords(ws: seq<string>)
    requires forall i :: 0 <= i < |ws| ==> IsWord(ws[i])
    ensures Fields(Unwords(ws)) == ws
    decreases |ws|
  {
    if |ws| == 0 {
    } else if |ws| == 1 {
      var w := ws[0];
      WordSpanOfWord(w, "");
      assert w + "" == w;
      assert w[..|w|] == w && w[|w|..] == "";
    } else {
      var w, rest := ws[0], Unwords(ws[1..]);
      var s := w + " " + rest;
      assert s == w + (" " + rest);
      WordSpanOfWord(w, " " + rest);
      assert s[..|w|] == w;
      assert s[|w|..] == " " + rest;
      assert (" " + rest)[1..] == rest;
      FieldsOfUnwords(ws[1..]);
      assert ws == [w] + ws[1..];
    }
  }

  // ---------------------------------------------------------------------------
  // strconv.Atoi
  // ---------------------------------------------------------------------------

  const MinInt64: int := -0x8000_0000_0000_0000
  const MaxInt64: int := 0x7FFF_FFFF_FFFF_FFFF

  predicate IsDigit(c: char) { '0' <= c <= '9' }

  predicate AllDigits(s: string) { forall i :: 0 <= i < |s| ==> IsDigit(s[i]) }

  function DigitValue(c: char): nat
    requires IsDigit(c)
  {
    (c as int) - ('0' as int)
  }

  /** The value of a string of decimal digits, most significant first. */
  function DigitsValue(s: string): nat
    requires AllDigits(s)
    decreases |s|
  {
    if |s| == 0 then 0 else 10 * DigitsValue(s[..|s| - 1]) + DigitValue(s[|s| - 1])
  }

  /**
   * `strconv.Atoi`: an optional sign followed by at least one decimal digit,
   * whose value fits in 64 bits; anything else is an error.
   */
  function Atoi(s: string): (r: Option<int>)
    ensures r.Some? ==> MinInt64 <= r.value <= MaxInt64
    ensures r.Some? ==> |s| > 0 && AllDigits(if s[0] == '-' || s[0] == '+' then s[1..] else s)
    ensures r.Some? && |s| > 0 && s[0] == '-' ==> r.value <= 0
    ensures r.Some? && |s| > 0 && s[0] != '-' ==> r.value >= 0
  {
    if |s| == 0 then None
    else
      var digits := if s[0] == '-' || s[0] == '+' then s[1..] else s;
      if |digits| == 0 || !AllDigits(digits) then None
      else
        var v: int := if s[0] == '-' then 0 - (DigitsValue(digits) as int) else DigitsValue(digits);
        if MinInt64 <= v <= MaxInt64 then Some(v) else None
  }

  /** The number a sign (empty, `+` or `-`) and a string of digits stand for. */
  function SignedValue(sign: string, d: string): int
    requires AllDigits(d)
  {
    if sign == "-" then 0 - (DigitsValue(d) as int) else DigitsValue(d)
  }

  /**
   * Every optional sign followed by at least one digit parses to its value
   * when that fits in 64 bits: `+2`, `02` and `-0` are accepted as well as the
   * canonical forms.
   */
  lemma AtoiOfSignedDigits(sign: string, d: string)
    requires sign == "" || sign == "+" || sign == "-"
    requires |d| > 0 && AllDigits(d)
    requires MinInt64 <= SignedValue(sign, d) <= MaxInt64
    ensures Atoi(sign + d) == Some(SignedValue(sign, d))
  {
    var s := sign + d;
    if sign == "" {
      assert s == d;
      assert IsDigit(d[0]);
    } else {
      assert s[1..] == d;
    }
  }

  /**
   * Conversely, whatever parses is an optional sign followed by at least one
   * digit, and the result is the value they stand for.
   */
  lemma AtoiSplits(s: string)
    requires Atoi(s).Some?
    ensures var sign := if s[0] == '-' || s[0] == '+' then s[..1] else "";
            && s == sign + s[|sign|..]
            && |s[|sign|..]| > 0 && AllDigits(s[|sign|..])
            && Atoi(s).value == SignedValue(sign, s[|sign|..])
  {
  }

  /** Inputs the parser refuses: nothing, a sign alone, a stray character, a value past 64 bits. */
  lemma AtoiRefuses(sign: string, d: string, c: char)
    requires sign == "" || sign == "+" || sign == "-"
    requires AllDigits(d) && !IsDigit(c)
    ensures Atoi("") == None && Atoi(sign) == None
    ensures Atoi(sign + d + [c]) == None
    ensures |d| > 0 && !(MinInt64 <= SignedValue(sign, d) <= MaxInt64) ==> Atoi(sign + d) == None
  {
    var s := sign + d + [c];
    if sign == "" {
      if |d| > 0 {
        assert s[0] == d[0];
        assert IsDigit(s[0]);
      }
      assert !AllDigits(s) by { assert s[|s| - 1] == c; }
    } else {
      assert s[1..] == d + [c];
      assert !AllDigits(s[1..]) by { assert s[1..][|d|] == c; }
    }
    if |d| > 0 {
      if sign == "" {
        assert sign + d == d;
        assert IsDigit(d[0]);
      } else {
        assert (sign + d)[1..] == d;
      }
    }
  }

  // ---------------------------------------------------------------------------
  // Decimal notation, the inverse of Atoi
  // ---------------------------------------------------------------------------

  function DigitChar(d: nat): (c: char)
    requires d < 10
    ensures IsDigit(c) && DigitValue(c) == d
  {
    ('0' as int + d) as char
  }

  /** The decimal digits of `n`, without leading zeros. */
  function Digits(n: nat): (s: string)
    ensures |s| > 0 && AllDigits(s)
    decreases n
  {
    if n < 10 then [DigitChar(n)] else Digits(n / 10) + [DigitChar(n % 10)]
  }

  /** `n` in decimal, with a minus sign when negative: how `%d` writes an ID. */
  function DecimalString(n: int): string {
    if n < 0 then "-" + Digits(-n) else Digits(n)
  }

  lemma {:induction false} DigitsValueOfDigits(n: nat)
    ensures DigitsValue(Digits(n)) == n
    decreases n
  {
    if n >= 10 {
      var s := Digits(n);
      assert s[..|s| - 1] == Digits(n / 10);
      DigitsValueOfDigits(n / 10);
    }
  }

  /** Reading back a number written in decimal gives the number. */
  lemma AtoiOfDecimalString(n: int)
    requires MinInt64 <= n <= MaxInt64
    ensures Atoi(DecimalString(n)) == Some(n)
  {
    if n < 0 {
      assert DecimalString(n)[1..] == Digits(-n);
      DigitsValueOfDigits(-n);
    } else {
      DigitsValueOfDigits(n);
    }
  }
}
