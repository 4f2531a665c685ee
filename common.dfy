/** Shared vocabulary: optional values, first-match search, filtering, and the
    character and decimal-string helpers that PHP string building relies on. */
module Common {

  datatype Option<+T> = None | Some(value: T) {
    /** PHP's `$x ?? $default` on a value that may be missing or null. */
    function GetOr(default: T): T {
      match this
      case Some(v) => v
      case None => default
    }
  }

  /** A key of a request or of a JSON body: missing, or present with a value
      that may be null. */
  datatype Key<+T> = Missing | Present(value: Option<T>) {
    /** `$request->input($key, $default)`: the default only when the key is
        missing; a key sent as null stays null. */
    function Input(default: T): Option<T> {
      match this
      case Missing => Some(default)
      case Present(v) => v
    }
  }

  /** The index of the first element satisfying `p`, as Eloquent's `->first()`
      returns the first row of a query in table order. */
  function FirstWhere<T>(s: seq<T>, p: T -> bool): (r: Option<nat>)
    ensures r.Some? ==> r.value < |s| && p(s[r.value])
    ensures r.Some? ==> forall j :: 0 <= j < r.value ==> !p(s[j])
    ensures r.None? <==> forall j :: 0 <= j < |s| ==> !p(s[j])
    decreases |s|
  {
    if s == [] then None
    else if p(s[0]) then Some(0)
    else
      match FirstWhere(s[1..], p)
      case None => None
      case Some(k) => Some(k + 1)
  }

  /** The elements of `s` that satisfy `p`, in order. */
  function Filter<T(!new)>(s: seq<T>, p: T -> bool): (r: seq<T>)
    ensures |r| <= |s|
    ensures forall x :: x in r <==> x in s && p(x)
    ensures forall x :: multiset(r)[x] == if p(x) then multiset(s)[x] else 0
    decreases |s|
  {
    if s == [] then []
    else
      assert s == [s[0]] + s[1..];
      if p(s[0]) then [s[0]] + Filter(s[1..], p)
      else Filter(s[1..], p)
  }

  predicate IsDigit(c: char) { '0' <= c <= '9' }

  predicate IsAsciiLetter(c: char) { 'A' <= c <= 'Z' || 'a' <= c <= 'z' }

  predicate IsAlnum(c: char) { IsDigit(c) || IsAsciiLetter(c) }

  /** A character of a voucher code: `A`-`Z` or `0`-`9`. */
  predicate IsUpperAlnum(c: char) { IsDigit(c) || 'A' <= c <= 'Z' }

  predicate AllDigits(s: string) { forall i :: 0 <= i < |s| ==> IsDigit(s[i]) }

  predicate AllAlnum(s: string) { forall i :: 0 <= i < |s| ==> IsAlnum(s[i]) }

  /** ASCII upper-casing, as PHP's `strtoupper` and `Str::upper` do on ASCII text. */
  function ToUpperChar(c: char): char {
    if 'a' <= c <= 'z' then (c as int - 32) as char else c
  }

  function ToUpper(s: string): string {
    seq(|s|, i requires 0 <= i < |s| => ToUpperChar(s[i]))
  }

  /** The characters PHP's `trim` strips: space, tab, newline, carriage return,
      NUL and vertical tab. */
  predicate IsTrimmedSpace(c: char) {
    c == ' ' || c == '\t' || c == '\n' || c == '\r' || c as int == 0 || c as int == 11
  }

  /** A string that Laravel's `required` rule rejects: `trim($value) === ''`. */
  predicate Blank(s: string) { forall i :: 0 <= i < |s| ==> IsTrimmedSpace(s[i]) }

  /** PHP truthiness of a string: only `""` and `"0"` are false. */
  predicate Truthy(s: string) { s != "" && s != "0" }

  /** PHP truthiness of a nullable integer column: null and 0 are false. */
  predicate IsSet(n: Option<nat>) { n.Some? && n.value != 0 }

  function DigitChar(d: nat): (c: char)
    requires d < 10
    ensures IsDigit(c)
  {
    ('0' as int + d) as char
  }

  function DigitValue(c: char): (d: nat)
    requires IsDigit(c)
    ensures d < 10
  {
    c as int - '0' as int
  }

  /** Decimal rendering of a natural number, as PHP's `$n . 'x'` renders an int:
      at least one digit, no leading zero. */
  function NatToString(n: nat): (s: string)
    ensures 1 <= |s| && AllDigits(s)
    ensures |s| > 1 ==> s[0] != '0'
    decreases n
  {
    if n < 10 then [DigitChar(n)] else NatToString(n / 10) + [DigitChar(n % 10)]
  }

  /** Reading a string of decimal digits back as a number. */
  function ParseNat(s: string): nat
    requires AllDigits(s)
    decreases |s|
  {
    if s == [] then 0 else 10 * ParseNat(s[..|s| - 1]) + DigitValue(s[|s| - 1])
  }

  /** Reading back the decimal rendering of a number gives the number. */
  lemma {:induction false} ParseNatToString(n: nat)
    ensures ParseNat(NatToString(n)) == n
    decreases n
  {
    var s := NatToString(n);
    if n >= 10 {
      assert s[..|s| - 1] == NatToString(n / 10);
      ParseNatToString(n / 10);
    }
  }

  /** Distinct numbers have distinct decimal renderings. */
  lemma NatToStringInjective(a: nat, b: nat)
    ensures NatToString(a) == NatToString(b) ==> a == b
  {
    ParseNatToString(a);
    ParseNatToString(b);
  }
}
