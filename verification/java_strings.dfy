/** The few `java.lang.String` / `Integer` operations the builder relies on,
    stated over `seq<char>`: `trim`, `endsWith`, `replace` of one character
    by another, `equalsIgnoreCase` (folding ASCII letters and the four other
    letters whose Java case mapping is an ASCII letter), `String.join`,
    `String.valueOf(int)` for non-negative values and `Integer.parseInt`. */
module JavaStrings {
  import opened Wrappers

  const MinInt: int := -0x8000_0000
  const MaxInt: int := 0x7fff_ffff

  /** `Strings.isNullOrEmpty` from Guava. */
  predicate IsNullOrEmpty(s: Option<string>) {
    s.None? || s.value == []
  }

  // ---------------------------------------------------------------------------
  // trim
  // ---------------------------------------------------------------------------

  /** `String.trim` strips every character whose code is at most U+0020. */
  predicate IsTrimmable(c: char) {
    c <= ' '
  }

  /** Drops the trimmable prefix: the result is a suffix of `s`, everything
      dropped is trimmable, and the result does not start with a trimmable
      character. */
  function TrimLeading(s: string): (r: string)
    ensures |r| <= |s| && r == s[|s| - |r|..]
    ensures forall i :: 0 <= i < |s| - |r| ==> IsTrimmable(s[i])
    ensures r != [] ==> !IsTrimmable(r[0])
  {
    if s != [] && IsTrimmable(s[0]) then TrimLeading(s[1..]) else s
  }

  /** Drops the trimmable suffix: the result is a prefix of `s`, everything
      dropped is trimmable, and the result does not end with a trimmable
      character. */
  function TrimTrailing(s: string): (r: string)
    ensures |r| <= |s| && r == s[..|r|]
    ensures forall i :: |r| <= i < |s| ==> IsTrimmable(s[i])
    ensures r != [] ==> !IsTrimmable(r[|r| - 1])
  {
    if s != [] && IsTrimmable(s[|s| - 1]) then TrimTrailing(s[..|s| - 1]) else s
  }

  /** `r` is the infix of `s` starting at `i` that is left once trimmable
      characters are stripped from both ends: everything before and after it
      is trimmable, and it neither starts nor ends with a trimmable character. */
  predicate TrimmedInfix(s: string, i: nat, r: string) {
    && i + |r| <= |s|
    && r == s[i..i + |r|]
    && (forall k :: 0 <= k < i ==> IsTrimmable(s[k]))
    && (forall k :: i + |r| <= k < |s| ==> IsTrimmable(s[k]))
    && (r != [] ==> !IsTrimmable(r[0]) && !IsTrimmable(r[|r| - 1]))
  }

  /** `String.trim`: strips trimmable characters from both ends. */
  function Trim(s: string): (r: string)
    ensures |r| <= |s|
    ensures r != [] ==> !IsTrimmable(r[0]) && !IsTrimmable(r[|r| - 1])
  {
    TrimTrailing(TrimLeading(s))
  }

  /** `trim` leaves the infix of `s` between its trimmable ends, and that
      infix is empty exactly when `s` is blank. */
  lemma TrimSpec(s: string)
    ensures TrimmedInfix(s, |s| - |TrimLeading(s)|, Trim(s))
    ensures Trim(s) == [] <==> forall k :: 0 <= k < |s| ==> IsTrimmable(s[k])
  {
    var t := TrimLeading(s);
    TrimShape(s, |s| - |t|, t, TrimTrailing(t));
  }

  /** Stripping a trimmable prefix of length `i` and then a trimmable suffix
      leaves an infix of `s` that is empty only when all of `s` is trimmable. */
  lemma TrimShape(s: string, i: nat, t: string, r: string)
    requires i <= |s| && t == s[i..] && |r| <= |t| && r == t[..|r|]
    requires forall k :: 0 <= k < i ==> IsTrimmable(s[k])
    requires forall k :: |r| <= k < |t| ==> IsTrimmable(t[k])
    requires r != [] ==> !IsTrimmable(r[0]) && !IsTrimmable(r[|r| - 1])
    ensures TrimmedInfix(s, i, r)
    ensures r == [] <==> forall k :: 0 <= k < |s| ==> IsTrimmable(s[k])
  {
    forall k | i + |r| <= k < |s|
      ensures IsTrimmable(s[k])
    {
      assert s[k] == t[k - i];
    }
    if r != [] {
      assert r[0] == s[i];
    }
  }

  /** A string with no trimmable character at either end is left unchanged. */
  lemma TrimFixpoint(s: string)
    requires s == [] || (!IsTrimmable(s[0]) && !IsTrimmable(s[|s| - 1]))
    ensures Trim(s) == s
  {
  }

  /** `trim` is idempotent. */
  lemma TrimIdempotent(s: string)
    ensures Trim(Trim(s)) == Trim(s)
  {
    TrimFixpoint(Trim(s));
  }

  /** `String.endsWith`. */
  predicate EndsWith(s: string, suffix: string) {
    |suffix| <= |s| && s[|s| - |suffix|..] == suffix
  }

  // ---------------------------------------------------------------------------
  // replace, equalsIgnoreCase, join
  // ---------------------------------------------------------------------------

  /** `String.replace` with a one-character target and replacement (the
      builder calls the `CharSequence` overload with `"\\"` and `"/"`, which
      for single characters is this character replacement): every occurrence
      of `from` becomes `to`, every other character is kept in place. */
  function ReplaceChar(s: string, from: char, to: char): (r: string)
    ensures |r| == |s|
    ensures forall i :: 0 <= i < |s| ==> r[i] == (if s[i] == from then to else s[i])
  {
    if s == [] then []
    else [if s[0] == from then to else s[0]] + ReplaceChar(s[1..], from, to)
  }

  /** After replacing `from` by a different character, `from` no longer
      occurs, and a second replacement changes nothing. */
  lemma ReplaceCharEliminates(s: string, from: char, to: char)
    requires from != to
    ensures from !in ReplaceChar(s, from, to)
    ensures ReplaceChar(ReplaceChar(s, from, to), from, to) == ReplaceChar(s, from, to)
  {
    var r := ReplaceChar(s, from, to);
    forall i | 0 <= i < |r|
      ensures r[i] != from
    {
    }
  }

  /** The letter a character folds to for `equalsIgnoreCase`: ASCII lower
      case goes to upper case, and the four non-ASCII letters whose Java case
      mappings land on ASCII letters go to those letters: dotless `ı`
      (upper case `I`), dotted `İ` (lower case `i`), long `ſ` (upper case
      `S`) and the Kelvin sign (lower case `k`). Every other character is its
      own fold. */
  function FoldCase(c: char): char {
    if 'a' <= c <= 'z' then (c as int - 'a' as int + 'A' as int) as char
    else if c == '\U{0131}' || c == '\U{0130}' then 'I'
    else if c == '\U{017F}' then 'S'
    else if c == '\U{212A}' then 'K'
    else c
  }

  /** Two characters are equal ignoring case when they are equal or fold to
      the same letter. */
  predicate CharEqualsIgnoreCase(a: char, b: char) {
    a == b || FoldCase(a) == FoldCase(b)
  }

  /** `String.equalsIgnoreCase` for non-null arguments. */
  predicate EqualsIgnoreCase(a: string, b: string) {
    |a| == |b| && forall i :: 0 <= i < |a| ==> CharEqualsIgnoreCase(a[i], b[i])
  }

  /** Ignoring case is an equivalence: reflexive, symmetric and transitive,
      and only strings of equal length are related. */
  lemma EqualsIgnoreCaseIsEquivalence(a: string, b: string, c: string)
    ensures EqualsIgnoreCase(a, a)
    ensures EqualsIgnoreCase(a, b) ==> |a| == |b| && EqualsIgnoreCase(b, a)
    ensures EqualsIgnoreCase(a, b) && EqualsIgnoreCase(b, c) ==> EqualsIgnoreCase(a, c)
  {
  }

  /** `String.join(sep, xs)`: the elements separated by `sep`. */
  function Join(xs: seq<string>, sep: string): (r: string)
    ensures xs == [] ==> r == []
    ensures |xs| == 1 ==> r == xs[0]
  {
    if xs == [] then []
    else if |xs| == 1 then xs[0]
    else Join(xs[..|xs| - 1], sep) + sep + xs[|xs| - 1]
  }

  /** Joining a list with one more element appends the separator and that
      element, unless the list was empty. */
  lemma JoinSnoc(xs: seq<string>, x: string, sep: string)
    ensures Join(xs + [x], sep) == if xs == [] then x else Join(xs, sep) + sep + x
  {
    assert (xs + [x])[..|xs|] == xs;
  }

  /** The join of non-empty strings is empty exactly when there is nothing to
      join. */
  lemma {:induction false} JoinEmptyIff(xs: seq<string>, sep: string)
    requires forall i :: 0 <= i < |xs| ==> xs[i] != []
    ensures Join(xs, sep) == [] <==> xs == []
  {
    if |xs| > 1 {
      var last := xs[|xs| - 1];
      assert last != [];
      assert Join(xs, sep) == Join(xs[..|xs| - 1], sep) + sep + last;
    }
  }

  // ---------------------------------------------------------------------------
  // String.valueOf(int) and Integer.parseInt
  // ---------------------------------------------------------------------------

  predicate IsDigit(c: char) {
    '0' <= c <= '9'
  }

  predicate AllDigits(s: string) {
    forall i :: 0 <= i < |s| ==> IsDigit(s[i])
  }

  function DigitValue(c: char): (d: nat)
    requires IsDigit(c)
    ensures d < 10
  {
    c as int - '0' as int
  }

  function DigitChar(d: nat): (c: char)
    requires d < 10
    ensures IsDigit(c) && DigitValue(c) == d
  {
    ('0' as int + d) as char
  }

  /** The number an ASCII decimal digit string denotes. */
  function DigitsValue(s: string): nat
    requires AllDigits(s)
  {
    if s == [] then 0 else DigitsValue(s[..|s| - 1]) * 10 + DigitValue(s[|s| - 1])
  }

  /** `String.valueOf(int)` for non-negative values: decimal digits without
      leading zeros. */
  function NatToString(n: nat): (r: string)
    ensures r != [] && AllDigits(r)
    ensures r[0] == '0' ==> r == "0"
  {
    if n < 10 then [DigitChar(n)] else NatToString(n / 10) + [DigitChar(n % 10)]
  }

  /** `Integer.parseInt(s)` in radix 10: an optional `+` or `-` sign followed by
      at least one ASCII digit, leading zeros allowed, denoting a value in the
      32-bit range; the result is that value, negated after a `-`. Anything
      else (including null) makes it throw, modelled as `None`. */
  function ParseInt(s: Option<string>): (r: Option<int>)
    ensures r.Some? ==> MinInt <= r.value <= MaxInt
    ensures r.Some? ==> s.Some? && s.value != []
    ensures r.Some? ==> var t := s.value;
                        var d := if t[0] == '-' || t[0] == '+' then t[1..] else t;
                        d != [] && AllDigits(d)
    ensures s.Some? && s.value != [] && AllDigits(s.value) ==>
              && (r.Some? <==> DigitsValue(s.value) <= MaxInt)
              && (r.Some? ==> r.value == DigitsValue(s.value))
    ensures s.Some? && |s.value| >= 2 && s.value[0] == '+' && AllDigits(s.value[1..]) ==>
              && (r.Some? <==> DigitsValue(s.value[1..]) <= MaxInt)
              && (r.Some? ==> r.value == DigitsValue(s.value[1..]))
    ensures s.Some? && |s.value| >= 2 && s.value[0] == '-' && AllDigits(s.value[1..]) ==>
              && (r.Some? <==> DigitsValue(s.value[1..]) <= -MinInt)
              && (r.Some? ==> r.value == -(DigitsValue(s.value[1..]) as int))
  {
    if s.None? || s.value == [] then None
    else
      var t := s.value;
      var signed := t[0] == '-' || t[0] == '+';
      var digits := if signed then t[1..] else t;
      if digits == [] || !AllDigits(digits) then None
      else
        var v: int := DigitsValue(digits);
        var n := if t[0] == '-' then -v else v;
        if MinInt <= n <= MaxInt then Some(n) else None
  }

  /** What `parseInt` rejects and accepts: null, the empty string, a lone
      sign, a non-digit and a value one past the 32-bit maximum are rejected;
      a negative number, an explicit `+`, leading zeros and `-0` are
      accepted. */
  lemma ParseIntExamples()
    ensures ParseInt(None) == None && ParseInt(Some("")) == None && ParseInt(Some("-")) == None
    ensures ParseInt(Some("47a3")) == None
    ensures ParseInt(Some("2147483648")) == None
    ensures ParseInt(Some("-1")) == Some(-1)
    ensures ParseInt(Some("+07")) == Some(7) && ParseInt(Some("-0")) == Some(0)
  {
    assert !AllDigits("47a3") by {
      assert !IsDigit("47a3"[2]);
    }
    assert DigitsValue("2147483648") == MaxInt + 1 by {
      DigitsValueExample();
    }
    assert ParseInt(Some("-1")) == Some(-1) by {
      assert "-1"[1..] == "1";
      assert "1"[..0] == "";
    }
    assert ParseInt(Some("+07")) == Some(7) by {
      assert "+07"[1..] == "07";
      assert "07"[..1] == "0";
      assert "0"[..0] == "";
    }
    assert ParseInt(Some("-0")) == Some(0) by {
      assert "-0"[1..] == "0";
      assert "0"[..0] == "";
    }
  }

  /** The digits one past the 32-bit maximum, read back digit by digit. */
  lemma DigitsValueExample()
    ensures AllDigits("2147483648") && DigitsValue("2147483648") == 2147483648
  {
    assert DigitsValue("21474") == 21474 by {
      assert "21474"[..4] == "2147";
      assert "2147"[..3] == "214";
      assert "214"[..2] == "21";
      assert "21"[..1] == "2";
      assert "2"[..0] == "";
    }
    assert "2147483648"[..9] == "214748364";
    assert "214748364"[..8] == "21474836";
    assert "21474836"[..7] == "2147483";
    assert "2147483"[..6] == "214748";
    assert "214748"[..5] == "21474";
  }

  /** Reading back the digits `NatToString` writes gives the number again. */
  lemma {:induction false} DigitsValueOfNatToString(n: nat)
    ensures DigitsValue(NatToString(n)) == n
  {
    if n >= 10 {
      var s := NatToString(n);
      DigitsValueOfNatToString(n / 10);
      assert s[..|s| - 1] == NatToString(n / 10);
    }
  }

  /** `Integer.parseInt(String.valueOf(n)) == n` for every port-sized `n`. */
  lemma ParseIntOfNatToString(n: nat)
    requires n <= MaxInt
    ensures ParseInt(Some(NatToString(n))) == Some(n)
  {
    DigitsValueOfNatToString(n);
  }

  /** Conversely, a digit string without superfluous leading zeros is what
      `NatToString` writes for the number it denotes. */
  lemma {:induction false} NatToStringOfDigitsValue(s: string)
    requires s != [] && AllDigits(s)
    requires s[0] == '0' ==> s == "0"
    ensures NatToString(DigitsValue(s)) == s
  {
    var n := DigitsValue(s);
    if |s| == 1 {
      assert s[..0] == [];
      assert DigitsValue(s[..0]) == 0;
      assert n == DigitValue(s[0]);
    } else {
      var init := s[..|s| - 1];
      assert init[0] == s[0];
      NatToStringOfDigitsValue(init);
      LeadingDigitNonZero(init);
      assert n / 10 == DigitsValue(init);
      assert n % 10 == DigitValue(s[|s| - 1]);
      assert s == init + [s[|s| - 1]];
    }
  }

  /** A digit string of two or more digits that does not start with `0` denotes
      a number of at least ten. */
  lemma {:induction false} LeadingDigitNonZero(s: string)
    requires s != [] && AllDigits(s) && s[0] != '0'
    ensures DigitsValue(s) >= 1
    ensures |s| >= 2 ==> DigitsValue(s) >= 10
  {
    if |s| >= 2 {
      var init := s[..|s| - 1];
      assert init[0] == s[0];
      LeadingDigitNonZero(init);
    }
  }
}
