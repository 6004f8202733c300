/** The slice of Ruby and Rails value semantics the backend relies on:
    the values a params hash can carry, Rails' `present?`, and Ruby's
    `to_s` and `to_i` (base 10). */
module RubyValues {
  import opened Outcomes

  /** A value stored in a params hash or in a column. */
  datatype Value =
    | Nil
    | Bool(b: bool)
    | Int(i: int)
    | Str(s: string)

  /** Ruby's `isspace` set, skipped by `String#to_i`: space, \t, \n, \v, \f, \r. */
  predicate IsAsciiSpace(c: char) {
    c == ' ' || '\U{9}' <= c <= '\U{D}'
  }

  /** The Unicode White_Space characters matched by `[[:space:]]`, which
      Rails' `String#blank?` uses. */
  predicate IsUnicodeSpace(c: char) {
    || IsAsciiSpace(c)
    || c == '\U{85}' || c == '\U{A0}' || c == '\U{1680}'
    || ('\U{2000}' <= c <= '\U{200A}')
    || c == '\U{2028}' || c == '\U{2029}' || c == '\U{202F}'
    || c == '\U{205F}' || c == '\U{3000}'
  }

  predicate IsDigit(c: char) {
    '0' <= c <= '9'
  }

  /** Rails' `Object#present?`: nil and false are blank, a string is blank
      when it holds only whitespace, every integer and `true` are present. */
  predicate Present(v: Value) {
    match v
    case Nil => false
    case Bool(b) => b
    case Int(_) => true
    case Str(s) => !AllSpace(s)
  }

  /** A string holding nothing but whitespace (the empty string included). */
  predicate AllSpace(s: string) {
    |s| == 0 || (IsUnicodeSpace(s[0]) && AllSpace(s[1..]))
  }

  // ---------------------------------------------------------------------
  // Integer#to_s

  function DigitChar(d: nat): (c: char)
    requires d < 10
    ensures IsDigit(c)
  {
    (d + '0' as int) as char
  }

  /** The decimal digits of `n`, most significant first, no leading zero. */
  function Digits(n: nat): (s: string)
    ensures |s| > 0
    ensures forall k :: 0 <= k < |s| ==> IsDigit(s[k])
    decreases n
  {
    if n < 10 then [DigitChar(n)] else Digits(n / 10) + [DigitChar(n % 10)]
  }

  /** `Integer#to_s`: a minus sign for negative numbers, then the digits. */
  function DecimalString(n: int): (s: string)
    ensures |s| > 0 && (s[0] == '-' || IsDigit(s[0]))
  {
    if n < 0 then "-" + Digits(-n) else Digits(n)
  }

  /** `to_s` of each modelled value. */
  function ToS(v: Value): string {
    match v
    case Nil => ""
    case Bool(b) => if b then "true" else "false"
    case Int(i) => DecimalString(i)
    case Str(s) => s
  }

  // ---------------------------------------------------------------------
  // String#to_i (base 10)

  /** Drops the leading ASCII whitespace `String#to_i` ignores. */
  function SkipSpaces(s: string): (t: string)
    ensures |t| <= |s| && t == s[|s| - |t|..]
    ensures |t| > 0 ==> !IsAsciiSpace(t[0])
  {
    if |s| > 0 && IsAsciiSpace(s[0]) then SkipSpaces(s[1..]) else s
  }

  /** Length of the longest prefix of `s` made of digits in which a single
      underscore may stand between two digits. Called once the first
      character is known to be a digit. */
  function RunLength(s: string): (n: nat)
    ensures n <= |s|
  {
    if |s| > 0 && IsDigit(s[0]) then 1 + RunLength(s[1..])
    else if |s| > 1 && s[0] == '_' && IsDigit(s[1]) then 2 + RunLength(s[2..])
    else 0
  }

  function WithoutUnderscores(s: string): (t: string)
    ensures |t| <= |s|
  {
    if s == [] then []
    else (if s[0] == '_' then [] else [s[0]]) + WithoutUnderscores(s[1..])
  }

  /** The number a string of digits denotes, read from its last digit. */
  function DigitsValue(s: string): nat {
    if s == [] then 0
    else if IsDigit(s[|s| - 1]) then DigitsValue(s[..|s| - 1]) * 10 + (s[|s| - 1] as int - '0' as int)
    else DigitsValue(s[..|s| - 1]) * 10
  }

  /** The unsigned number at the head of `w`, 0 when `w` starts with no digit. */
  function LeadingNumber(w: string): nat {
    if |w| > 0 && IsDigit(w[0]) then DigitsValue(WithoutUnderscores(w[..RunLength(w)])) else 0
  }

  /** `String#to_i`: leading whitespace, an optional sign, an optional `0d`
      radix prefix, then the longest digit run; anything unreadable is 0. */
  function StringToInt(s: string): int {
    var t := SkipSpaces(s);
    var negative := |t| > 0 && t[0] == '-';
    var u := if |t| > 0 && (t[0] == '-' || t[0] == '+') then t[1..] else t;
    var w := if |u| > 1 && u[0] == '0' && (u[1] == 'd' || u[1] == 'D') then u[2..] else u;
    var m: int := LeadingNumber(w);
    if negative then -m else m
  }

  /** `to_i` of each modelled value: `true.to_i` and `false.to_i` raise,
      since booleans have no `to_i`. */
  function ToI(v: Value): (r: Result<int>)
    ensures r.Err? <==> v.Bool?
    ensures v.Int? ==> r == Ok(v.i)
  {
    match v
    case Nil => Ok(0)
    case Bool(_) => Err(NoMethodError)
    case Int(i) => Ok(i)
    case Str(s) => Ok(StringToInt(s))
  }

  // ---------------------------------------------------------------------
  // Round trip between to_s and to_i

  lemma {:induction false} RunLengthOfDigits(s: string)
    requires forall k :: 0 <= k < |s| ==> IsDigit(s[k])
    ensures RunLength(s) == |s|
    decreases |s|
  {
    if |s| > 0 {
      RunLengthOfDigits(s[1..]);
    }
  }

  lemma {:induction false} WithoutUnderscoresOfDigits(s: string)
    requires forall k :: 0 <= k < |s| ==> IsDigit(s[k])
    ensures WithoutUnderscores(s) == s
    decreases |s|
  {
    if s != [] {
      WithoutUnderscoresOfDigits(s[1..]);
    }
  }

  lemma {:induction false} DigitsValueOfDigits(n: nat)
    ensures DigitsValue(Digits(n)) == n
    decreases n
  {
    var s := Digits(n);
    if n >= 10 {
      DigitsValueOfDigits(n / 10);
      assert s[..|s| - 1] == Digits(n / 10);
    }
  }

  /** The digits Integer#to_s writes are read back by String#to_i. */
  lemma LeadingNumberOfDigits(n: nat)
    ensures LeadingNumber(Digits(n)) == n
  {
    var s := Digits(n);
    RunLengthOfDigits(s);
    assert s[..RunLength(s)] == s;
    WithoutUnderscoresOfDigits(s);
    DigitsValueOfDigits(n);
  }

  /** `n.to_s.to_i == n` for every integer, so an integer given as its
      decimal string converts back to itself. */
  lemma StringToIntOfDecimalString(n: int)
    ensures StringToInt(DecimalString(n)) == n
  {
    var s := DecimalString(n);
    assert SkipSpaces(s) == s;
    var m: nat := if n < 0 then -n else n;
    var d := Digits(m);
    LeadingNumberOfDigits(m);
    if n < 0 {
      assert s[1..] == d;
    }
    assert |d| > 1 ==> IsDigit(d[1]);
  }

  /** `present?` in terms of single characters: nil and false are blank,
      true and every integer are present, and a string is present exactly
      when some character of it is not whitespace. */
  lemma PresentMeaning(v: Value)
    ensures v.Nil? ==> !Present(v)
    ensures v.Bool? ==> (Present(v) <==> v.b)
    ensures v.Int? ==> Present(v)
    ensures v.Str? ==> (Present(v) <==> exists i :: 0 <= i < |v.s| && !IsUnicodeSpace(v.s[i]))
  {
    if v.Str? {
      AllSpaceMeaning(v.s);
    }
  }

  lemma {:induction false} AllSpaceMeaning(s: string)
    ensures AllSpace(s) <==> forall i :: 0 <= i < |s| ==> IsUnicodeSpace(s[i])
    decreases |s|
  {
    if |s| > 0 {
      AllSpaceMeaning(s[1..]);
      assert forall i :: 1 <= i < |s| ==> s[i] == s[1..][i - 1];
    }
  }

  /** The decimal string of an integer is never blank. */
  lemma DecimalStringPresent(n: int)
    ensures Present(Str(DecimalString(n)))
  {
    var s := DecimalString(n);
    assert !IsUnicodeSpace(s[0]);
  }
}
