/**
  Python's conversions between integers and decimal text: `str(n)` for an
  `int` and `int(s)` for a `str` (base 10).
 */
module Ints {
  import opened Wrappers
  import opened Text

  predicate IsDigit(c: char) {
    '0' <= c <= '9'
  }

  function DigitChar(d: nat): (c: char)
    requires d < 10
    ensures IsDigit(c)
  {
    ('0' as int + d) as char
  }

  function DigitValue(c: char): (d: nat)
    requires IsDigit(c)
    ensures d < 10
  {
    c as int - '0' as int
  }

  /** The decimal digits of `n`, most significant first, without leading zeros. */
  function NatToDigits(n: nat): (s: String)
    ensures |s| >= 1
    ensures forall i :: 0 <= i < |s| ==> IsDigit(s[i])
    ensures |s| > 1 ==> s[0] != '0'
  {
    if n < 10 then [DigitChar(n)] else NatToDigits(n / 10) + [DigitChar(n % 10)]
  }

  /** `str(n)` for a Python `int`. */
  function IntToString(n: int): (s: String)
    ensures |s| >= 1 && Trimmed(s)
    ensures '\n' !in s
    ensures (s[0] == '-') == (n < 0)
    ensures var d := if n < 0 then s[1..] else s;
      |d| >= 1 && (forall i :: 0 <= i < |d| ==> IsDigit(d[i])) && (|d| > 1 ==> d[0] != '0')
  {
    if n < 0 then "-" + NatToDigits(-n) else NatToDigits(n)
  }

  /**
    What `int()` accepts after the sign: digits, with single underscores
    allowed between two digits (`"1_000"`), nothing else.
   */
  predicate ValidDigits(b: String) {
    && |b| >= 1
    && IsDigit(b[0]) && IsDigit(b[|b| - 1])
    && (forall i :: 0 <= i < |b| ==> IsDigit(b[i]) || b[i] == '_')
    && (forall i :: 0 <= i < |b| - 1 && b[i] == '_' ==> IsDigit(b[i + 1]))
  }

  /** The number a valid digit string denotes; underscores are skipped. */
  function DigitsValue(b: String): nat
    requires forall i :: 0 <= i < |b| ==> IsDigit(b[i]) || b[i] == '_'
  {
    if b == [] then 0
    else if b[|b| - 1] == '_' then DigitsValue(b[..|b| - 1])
    else DigitsValue(b[..|b| - 1]) * 10 + DigitValue(b[|b| - 1])
  }

  /**
    The whitespace `int()` skips around the number: what `str.isspace()`
    accepts, except the ASCII separators U+001C to U+001F, which `int()`
    leaves in place and then rejects.
   */
  predicate IsIntSpace(c: char) {
    IsSpace(c) && !('\U{1C}' <= c <= '\U{1F}')
  }

  predicate AllIntSpace(s: String) {
    forall i :: 0 <= i < |s| ==> IsIntSpace(s[i])
  }

  predicate IntTrimmed(s: String) {
    s == [] || (!IsIntSpace(s[0]) && !IsIntSpace(s[|s| - 1]))
  }

  // SkipIntSpace, DropIntSpace and IntStrip mirror Text.TrimStart, Text.TrimEnd
  // and Text.Strip over IsIntSpace instead of IsSpace. They are kept apart
  // because `int()` and `str.strip()` disagree on U+001C to U+001F, and the
  // strip lemmas in Text are cheaper to prove over a fixed predicate.

  /** Drops the leading whitespace `int()` skips. */
  function SkipIntSpace(s: String): (r: String)
    ensures |r| <= |s|
    ensures r == [] || !IsIntSpace(r[0])
  {
    if s != [] && IsIntSpace(s[0]) then SkipIntSpace(s[1..]) else s
  }

  /** Drops the trailing whitespace `int()` skips. */
  function DropIntSpace(s: String): (r: String)
    ensures |r| <= |s|
    ensures r == [] || !IsIntSpace(r[|r| - 1])
  {
    if s != [] && IsIntSpace(s[|s| - 1]) then DropIntSpace(s[..|s| - 1]) else s
  }

  /** Dropping a trailing run keeps the first character, unless everything goes. */
  lemma {:induction false} DropIntSpaceKeepsFirst(s: String)
    ensures var r := DropIntSpace(s); r == [] || r[0] == s[0]
  {
    if s != [] && IsIntSpace(s[|s| - 1]) {
      DropIntSpaceKeepsFirst(s[..|s| - 1]);
    }
  }

  /** The text `int()` reads once the surrounding whitespace is skipped. */
  function IntStrip(s: String): (r: String)
    ensures IntTrimmed(r)
    ensures |r| <= |s|
  {
    DropIntSpaceKeepsFirst(SkipIntSpace(s));
    DropIntSpace(SkipIntSpace(s))
  }

  /**
    `int(s)`: surrounding whitespace is ignored, then an optional `+` or `-`,
    then valid digits; anything else is the `ValueError` case, `None`.
   */
  function ParseInt(s: String): (r: Option<int>)
    ensures r.Some? ==> var t := IntStrip(s); t != [] && IsDigit(t[|t| - 1])
    ensures r.Some? ==> var t := IntStrip(s);
      forall i :: 0 <= i < |t| ==> IsDigit(t[i]) || (t[i] == '_' && 0 < i < |t| - 1) || (i == 0 && (t[i] == '+' || t[i] == '-'))
    ensures r.Some? ==> var t := IntStrip(s);
      forall i :: 0 <= i < |t| && t[i] == '_' ==> IsDigit(t[i - 1]) && IsDigit(t[i + 1])
  {
    ParseSigned(IntStrip(s))
  }

  /**
    Every form `int()` accepts is read: an optional sign, then digits with
    single underscores between them, with the value those digits denote.
   */
  lemma ParseIntAccepts(sign: String, b: String)
    requires sign == "" || sign == "+" || sign == "-"
    requires ValidDigits(b)
    ensures ParseInt(sign + b) == Some(if sign == "-" then -(DigitsValue(b) as int) else DigitsValue(b) as int)
  {
    var t := sign + b;
    assert t[|t| - 1] == b[|b| - 1];
    assert t[0] == if sign == "" then b[0] else sign[0];
    IntStripTrimmed(t);
    ParseSignedAccepts(sign, b);
  }

  lemma ParseSignedAccepts(sign: String, b: String)
    requires sign == "" || sign == "+" || sign == "-"
    requires ValidDigits(b)
    ensures ParseSigned(sign + b) == Some(if sign == "-" then -(DigitsValue(b) as int) else DigitsValue(b) as int)
  {
    var t := sign + b;
    if sign == "" {
      assert t == b;
    } else {
      assert t[0] == sign[0];
      assert t[1..] == b;
    }
  }

  /** Leading zeros are accepted: `int("01") == 1`. */
  lemma ParseIntLeadingZero()
    ensures ParseInt("01") == Some(1)
  {
    var b := "01";
    assert b[..1] == "0";
    assert DigitsValue(b) == 1;
    ParseIntAccepts("", b);
    assert "" + b == b;
  }

  /** An explicit plus sign is accepted: `int("+2") == 2`. */
  lemma ParseIntPlusSign()
    ensures ParseInt("+2") == Some(2)
  {
    var b := "2";
    assert DigitsValue(b) == 2;
    ParseIntAccepts("+", b);
    assert "+" + b == "+2";
  }

  /** An underscore between digits is skipped: `int("1_0") == 10`. */
  lemma ParseIntUnderscore()
    ensures ParseInt("1_0") == Some(10)
  {
    var b := "1_0";
    assert b[..2] == "1_" && "1_"[..1] == "1";
    assert DigitsValue("1") == 1;
    assert DigitsValue("1_") == 1;
    assert DigitsValue(b) == 10;
    assert ValidDigits(b);
    ParseIntAccepts("", b);
    assert "" + b == b;
  }

  /** A letter, a decimal point or a doubled underscore makes the choice a `ValueError`. */
  lemma ParseIntRejectsOtherChars()
    ensures ParseInt("a1") == None
    ensures ParseInt("1.5") == None
    ensures ParseInt("1__0") == None
  {
    IntStripTrimmed("a1");
    IntStripTrimmed("1.5");
    IntStripTrimmed("1__0");
  }

  /** An optional sign followed by valid digits. */
  function ParseSigned(t: String): Option<int> {
    if t == [] then None
    else
      var body := if t[0] == '-' || t[0] == '+' then t[1..] else t;
      if !ValidDigits(body) then None
      else if t[0] == '-' then Some(-(DigitsValue(body) as int))
      else Some(DigitsValue(body) as int)
  }

  lemma {:induction false} NatToDigitsValue(n: nat)
    ensures ValidDigits(NatToDigits(n))
    ensures DigitsValue(NatToDigits(n)) == n
  {
    var s := NatToDigits(n);
    if n >= 10 {
      NatToDigitsValue(n / 10);
      assert s[..|s| - 1] == NatToDigits(n / 10);
    } else {
      assert s[..|s| - 1] == [];
    }
  }

  /** `int(str(n)) == n`: the number shown to the user reads back as itself. */
  lemma ParseIntToString(n: int)
    ensures ParseInt(IntToString(n)) == Some(n)
  {
    IntStripTrimmed(IntToString(n));
    ParseSignedToString(n);
  }

  lemma ParseSignedToString(n: int)
    ensures ParseSigned(IntToString(n)) == Some(n)
  {
    var s := IntToString(n);
    if n < 0 {
      var d := NatToDigits(-n);
      NatToDigitsValue(-n);
      assert s == "-" + d;
      assert s[0] == '-' && s[1..] == d;
    } else {
      NatToDigitsValue(n);
      assert IsDigit(s[0]);
    }
  }

  /** A string with nothing for `int()` to skip at its ends is read as it is. */
  lemma IntStripTrimmed(s: String)
    requires IntTrimmed(s)
    ensures IntStrip(s) == s
  {
    assert SkipIntSpace(s) == s;
    assert DropIntSpace(s) == s;
  }

  /** Surrounding whitespace, in the sense `int()` uses, does not change what `int()` reads. */
  lemma ParseIntIgnoresSpace(pre: String, s: String, post: String)
    requires AllIntSpace(pre) && AllIntSpace(post) && IntTrimmed(s)
    ensures ParseInt(pre + s + post) == ParseInt(s)
  {
    IntStripAround(pre, s, post);
    IntStripTrimmed(s);
  }

  lemma {:induction false} IntStripAround(pre: String, s: String, post: String)
    requires AllIntSpace(pre) && AllIntSpace(post) && IntTrimmed(s)
    ensures IntStrip(pre + s + post) == s
  {
    if s == [] {
      assert pre + s + post == pre + post;
      SkipIntSpaceAround(pre + post, []);
      assert pre + post + [] == pre + post;
    } else {
      assert pre + s + post == pre + (s + post);
      SkipIntSpaceAround(pre, s + post);
      DropIntSpaceAround(s, post);
    }
  }

  lemma {:induction false} SkipIntSpaceAround(pre: String, s: String)
    requires AllIntSpace(pre) && (s == [] || !IsIntSpace(s[0]))
    ensures SkipIntSpace(pre + s) == s
  {
    if pre == [] {
      assert pre + s == s;
    } else {
      assert (pre + s)[1..] == pre[1..] + s;
      SkipIntSpaceAround(pre[1..], s);
    }
  }

  lemma {:induction false} DropIntSpaceAround(s: String, post: String)
    requires AllIntSpace(post) && (s == [] || !IsIntSpace(s[|s| - 1]))
    ensures DropIntSpace(s + post) == s
  {
    if post == [] {
      assert s + post == s;
    } else {
      var b := post[..|post| - 1];
      assert (s + post)[..|s + post| - 1] == s + b;
      DropIntSpaceAround(s, b);
    }
  }

  /** An empty or all-whitespace string is rejected by `int()`. */
  lemma ParseIntBlank(s: String)
    requires AllSpace(s)
    ensures ParseInt(s) == None
  {
    SkipIntSpaceAllSpace(s);
    DropIntSpaceAllSpace(SkipIntSpace(s));
  }

  lemma {:induction false} SkipIntSpaceAllSpace(s: String)
    requires AllSpace(s)
    ensures AllSpace(SkipIntSpace(s))
  {
    if s != [] && IsIntSpace(s[0]) {
      SkipIntSpaceAllSpace(s[1..]);
    }
  }

  lemma {:induction false} DropIntSpaceAllSpace(s: String)
    requires AllSpace(s)
    ensures AllSpace(DropIntSpace(s))
  {
    if s != [] && IsIntSpace(s[|s| - 1]) {
      DropIntSpaceAllSpace(s[..|s| - 1]);
    }
  }

  /**
    A choice starting with one of U+001C to U+001F is rejected, although
    `strip()` would remove that character: `int("\x1c1")` raises.
   */
  lemma ParseIntRejectsLeadingSeparator(c: char, s: String)
    requires '\U{1C}' <= c <= '\U{1F}'
    ensures ParseInt([c] + s) == None
  {
    var t := [c] + s;
    assert SkipIntSpace(t) == t;
    DropIntSpaceKeepsFirst(t);
  }
}
