/** Small shared vocabulary: optional values, results, and the handful of
    Python string operations the bot relies on (`in` on strings, `lower()`,
    `isupper()`, `strip()`, slicing). Letters are A-Z, a-z, the Russian
    alphabet А-Я, а-я and Ё, ё; digits are 0-9; white space is the set
    Python's `str.strip()` removes. */
module Common {

  datatype Option<T> = None | Some(value: T)

  datatype Result<T, E> = Ok(value: T) | Err(error: E)

  // ---------------------------------------------------------------------
  // Substring test: Python's `sub in s` for strings

  /** `sub` occurs in `s` at some position. */
  predicate Contains(s: string, sub: string)
    decreases |s|
  {
    sub <= s || (|s| > 0 && Contains(s[1..], sub))
  }

  /** The recursive test agrees with the positional reading of `sub in s`. */
  lemma {:induction false} ContainsAt(s: string, sub: string)
    ensures Contains(s, sub) <==> exists i | 0 <= i <= |s| :: sub <= s[i..]
    decreases |s|
  {
    assert s[0..] == s;
    if |s| > 0 {
      ContainsAt(s[1..], sub);
      assert forall i | 1 <= i <= |s| :: s[i..] == s[1..][i - 1..];
    }
  }

  /** A string contains every piece written into it. */
  lemma {:induction false} ContainsInfix(a: string, sub: string, b: string)
    ensures Contains(a + sub + b, sub)
    decreases |a|
  {
    if a == [] {
      assert a + sub + b == sub + b;
      assert sub <= sub + b;
    } else {
      ContainsInfix(a[1..], sub, b);
      assert (a + sub + b)[1..] == a[1..] + sub + b;
    }
  }

  // ---------------------------------------------------------------------
  // Letter case: `str.isupper()` per character and `str.lower()`

  predicate IsUpperChar(c: char)
  {
    ('A' <= c <= 'Z') || ('А' <= c <= 'Я') || c == 'Ё'
  }

  predicate IsLowerChar(c: char)
  {
    ('a' <= c <= 'z') || ('а' <= c <= 'я') || c == 'ё'
  }

  /** Lower-case one character: Latin A-Z, Cyrillic А-Я and Ё. */
  function LowerChar(c: char): (r: char)
    ensures IsUpperChar(c) ==> IsLowerChar(r)
    ensures !IsUpperChar(c) ==> r == c
    ensures !IsUpperChar(r)
  {
    if 'A' <= c <= 'Z' || 'А' <= c <= 'Я' then (c as int + 32) as char
    else if c == 'Ё' then 'ё'
    else c
  }

  function Lower(s: string): (r: string)
    ensures |r| == |s|
    ensures forall i :: 0 <= i < |s| ==> r[i] == LowerChar(s[i])
  {
    if s == [] then [] else [LowerChar(s[0])] + Lower(s[1..])
  }

  /** Lower-casing twice is lower-casing once. */
  lemma {:induction false} LowerIdempotent(s: string)
    ensures Lower(Lower(s)) == Lower(s)
  {
    assert forall i :: 0 <= i < |s| ==> Lower(Lower(s))[i] == Lower(s)[i];
  }

  lemma {:induction false} LowerConcat(a: string, b: string)
    ensures Lower(a + b) == Lower(a) + Lower(b)
  {
    assert forall i :: 0 <= i < |a + b| ==> Lower(a + b)[i] == (Lower(a) + Lower(b))[i];
  }

  /** Number of upper-case characters, `sum(1 for c in s if c.isupper())`. */
  function CountUpper(s: string): (n: nat)
    ensures n <= |s|
  {
    if s == [] then 0 else (if IsUpperChar(s[0]) then 1 else 0) + CountUpper(s[1..])
  }

  /** A lower-cased string has no upper-case characters. */
  lemma {:induction false} CountUpperOfLower(s: string)
    ensures CountUpper(Lower(s)) == 0
    decreases |s|
  {
    if s != [] {
      CountUpperOfLower(s[1..]);
      assert Lower(s)[1..] == Lower(s[1..]);
    }
  }

  /** An all upper-case string counts every character. */
  lemma {:induction false} CountUpperAll(s: string)
    requires forall i :: 0 <= i < |s| ==> IsUpperChar(s[i])
    ensures CountUpper(s) == |s|
    decreases |s|
  {
    if s != [] {
      CountUpperAll(s[1..]);
    }
  }

  lemma {:induction false} CountUpperConcat(a: string, b: string)
    ensures CountUpper(a + b) == CountUpper(a) + CountUpper(b)
    decreases |a|
  {
    if a != [] {
      CountUpperConcat(a[1..], b);
      assert (a + b)[1..] == a[1..] + b;
    } else {
      assert a + b == b;
    }
  }

  // ---------------------------------------------------------------------
  // `str.strip()`

  /** The characters `str.isspace()` accepts: tab to carriage return, the
      four information separators, space, next line, no-break space, and
      the Unicode space and line or paragraph separators. */
  predicate IsSpace(c: char)
  {
    ('\t' <= c <= '\r') || ('\U{1C}' <= c <= ' ') || c == '\U{85}' || c == '\U{A0}' || c == '\U{1680}' ||
    ('\U{2000}' <= c <= '\U{200A}') || c == '\U{2028}' || c == '\U{2029}' || c == '\U{202F}' ||
    c == '\U{205F}' || c == '\U{3000}'
  }

  function StripLeft(s: string): (r: string)
    ensures r != [] ==> !IsSpace(r[0])
  {
    if s != [] && IsSpace(s[0]) then StripLeft(s[1..]) else s
  }

  function StripRight(s: string): (r: string)
    ensures r <= s
    ensures r != [] ==> !IsSpace(r[|r| - 1])
  {
    if s != [] && IsSpace(s[|s| - 1]) then StripRight(s[..|s| - 1]) else s
  }

  /** Leading and trailing white space removed. */
  function Strip(s: string): (r: string)
    ensures r != [] ==> !IsSpace(r[0]) && !IsSpace(r[|r| - 1])
  {
    StripRight(StripLeft(s))
  }

  /** A text with non-blank ends is already stripped. */
  lemma {:induction false} StripClean(text: string)
    requires text != [] && !IsSpace(text[0]) && !IsSpace(text[|text| - 1])
    ensures Strip(text) == text
  {
    assert StripLeft(text) == text;
  }

  lemma {:induction false} StripLeadingPad(pad: string, text: string)
    requires forall i :: 0 <= i < |pad| ==> IsSpace(pad[i])
    requires text != [] && !IsSpace(text[0]) && !IsSpace(text[|text| - 1])
    ensures Strip(pad + text) == text
  {
    StripLeftSpaces(pad, text);
  }

  lemma {:induction false} StripTrailingPad(text: string, pad: string)
    requires forall i :: 0 <= i < |pad| ==> IsSpace(pad[i])
    requires text != [] && !IsSpace(text[0]) && !IsSpace(text[|text| - 1])
    ensures Strip(text + pad) == text
  {
    assert (text + pad)[0] == text[0];
    assert StripLeft(text + pad) == text + pad;
    StripRightSpaces(text, pad);
  }

  lemma {:induction false} StripLeftSpaces(pre: string, rest: string)
    requires forall i :: 0 <= i < |pre| ==> IsSpace(pre[i])
    requires rest != [] && !IsSpace(rest[0])
    ensures StripLeft(pre + rest) == rest
    decreases |pre|
  {
    if pre == [] {
      assert pre + rest == rest;
    } else {
      var s := pre + rest;
      assert IsSpace(s[0]);
      assert s[1..] == pre[1..] + rest;
      assert StripLeft(s) == StripLeft(s[1..]);
      StripLeftSpaces(pre[1..], rest);
    }
  }

  lemma {:induction false} StripRightSpaces(rest: string, post: string)
    requires forall i :: 0 <= i < |post| ==> IsSpace(post[i])
    requires rest != [] && !IsSpace(rest[|rest| - 1])
    ensures StripRight(rest + post) == rest
    decreases |post|
  {
    if post == [] {
      assert rest + post == rest;
    } else {
      var s := rest + post;
      assert s[..|s| - 1] == rest + post[..|post| - 1];
      StripRightSpaces(rest, post[..|post| - 1]);
    }
  }

  // ---------------------------------------------------------------------
  // Slicing and character filters

  /** Python's `s[:n]` for n >= 0. */
  function Take<T>(s: seq<T>, n: nat): (r: seq<T>)
    ensures |r| <= n && r <= s
    ensures |s| <= n ==> r == s
    ensures |s| > n ==> r == s[..n]
  {
    if |s| <= n then s else s[..n]
  }

  predicate IsDigitChar(c: char)
  {
    '0' <= c <= '9'
  }

  predicate IsAlphaChar(c: char)
  {
    IsUpperChar(c) || IsLowerChar(c)
  }

  /** `''.join(filter(str.isdigit, s))` */
  function Digits(s: string): (r: string)
    ensures forall i :: 0 <= i < |r| ==> IsDigitChar(r[i])
    ensures |r| <= |s|
  {
    if s == [] then [] else (if IsDigitChar(s[0]) then [s[0]] else []) + Digits(s[1..])
  }

  /** `''.join(filter(str.isalpha, s))` */
  function Letters(s: string): (r: string)
    ensures forall i :: 0 <= i < |r| ==> IsAlphaChar(r[i])
    ensures |r| <= |s|
  {
    if s == [] then [] else (if IsAlphaChar(s[0]) then [s[0]] else []) + Letters(s[1..])
  }

  lemma {:induction false} DigitsConcat(a: string, b: string)
    ensures Digits(a + b) == Digits(a) + Digits(b)
    ensures Letters(a + b) == Letters(a) + Letters(b)
    decreases |a|
  {
    if a == [] {
      assert a + b == b;
    } else {
      assert (a + b)[1..] == a[1..] + b;
      DigitsConcat(a[1..], b);
    }
  }

  /** Decimal value of a string of digits, `int(s)`. */
  function DecimalValue(s: string): nat
    requires forall i :: 0 <= i < |s| ==> IsDigitChar(s[i])
  {
    if s == [] then 0
    else
      assert IsDigitChar(s[|s| - 1]);
      DecimalValue(s[..|s| - 1]) * 10 + (s[|s| - 1] as int - '0' as int)
  }

  /** Decimal rendering of a natural number, without leading zeros. */
  function DecimalString(n: nat): (r: string)
    ensures r != [] && forall i :: 0 <= i < |r| ==> IsDigitChar(r[i])
  {
    if n < 10 then [('0' as int + n) as char]
    else DecimalString(n / 10) + [('0' as int + n % 10) as char]
  }

  /** Reading back a rendered number gives the number. */
  lemma {:induction false} DecimalRoundTrip(n: nat)
    ensures DecimalValue(DecimalString(n)) == n
  {
    var s := DecimalString(n);
    if n >= 10 {
      DecimalRoundTrip(n / 10);
      assert s[..|s| - 1] == DecimalString(n / 10);
    }
  }
}
