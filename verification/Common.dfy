/**
 What several models share: optional values, map lookup, and ASCII text.
 */
module Common {

  datatype Option<+T> = None | Some(value: T)

  function Lookup<V>(m: map<string, V>, key: string): Option<V> {
    if key in m then Some(m[key]) else None
  }

  // ----- Characters -----

  function LowerChar(c: char): char {
    if 'A' <= c <= 'Z' then c - 'A' + 'a' else c
  }

  function Lower(s: string): string {
    seq(|s|, i requires 0 <= i < |s| => LowerChar(s[i]))
  }

  predicate IsDigit(c: char) {
    '0' <= c <= '9'
  }

  /** White space and line terminators, within ASCII. */
  predicate IsSpace(c: char) {
    c == ' ' || '\t' <= c <= '\r'
  }

  /** Capitals become their small letters, in order, and nothing else changes. */
  lemma LettersAre(c: char, d: char)
    ensures LowerChar('A') == 'a' && LowerChar('Z') == 'z'
    ensures 'A' <= c <= d <= 'Z' ==> LowerChar(d) as int - LowerChar(c) as int == d as int - c as int
    ensures !('A' <= c <= 'Z') ==> LowerChar(c) == c
  {
  }

  lemma SpacesAre(c: char)
    ensures IsSpace(c) <==> c in {' ', '\t', '\n', '\U{000B}', '\U{000C}', '\r'}
  {
  }

  // ----- White space -----

  function SkipSpaces(s: string): (r: string)
    ensures |r| <= |s|
  {
    if s != [] && IsSpace(s[0]) then SkipSpaces(s[1..]) else s
  }

  function TrimEnd(s: string): string {
    if s != [] && IsSpace(s[|s| - 1]) then TrimEnd(s[..|s| - 1]) else s
  }

  /** `trim()`. */
  function Trim(s: string): string {
    TrimEnd(SkipSpaces(s))
  }

  lemma {:induction false} SkipIsSuffix(s: string)
    ensures |SkipSpaces(s)| <= |s| && SkipSpaces(s) == s[|s| - |SkipSpaces(s)|..]
    ensures forall i | 0 <= i < |s| - |SkipSpaces(s)| :: IsSpace(s[i])
    ensures SkipSpaces(s) != [] ==> !IsSpace(SkipSpaces(s)[0])
  {
    if s != [] && IsSpace(s[0]) { SkipIsSuffix(s[1..]); }
  }

  lemma {:induction false} TrimEndIsPrefix(s: string)
    ensures |TrimEnd(s)| <= |s| && TrimEnd(s) == s[..|TrimEnd(s)|]
    ensures forall i | |TrimEnd(s)| <= i < |s| :: IsSpace(s[i])
    ensures TrimEnd(s) != [] ==> !IsSpace(TrimEnd(s)[|TrimEnd(s)| - 1])
  {
    if s != [] && IsSpace(s[|s| - 1]) { TrimEndIsPrefix(s[..|s| - 1]); }
  }

  /** Trimming cuts off white space on both sides, all of it and nothing else. */
  lemma TrimCuts(s: string) returns (from: nat, to: nat)
    ensures from <= to <= |s| && Trim(s) == s[from..to]
    ensures forall i | 0 <= i < |s| && !(from <= i < to) :: IsSpace(s[i])
    ensures from < to ==> !IsSpace(s[from]) && !IsSpace(s[to - 1])
  {
    SkipIsSuffix(s);
    TrimEndIsPrefix(SkipSpaces(s));
    from := |s| - |SkipSpaces(s)|;
    to := from + |Trim(s)|;
  }

  // ----- Numerals -----

  predicate AllDigits(s: string) {
    forall i | 0 <= i < |s| :: IsDigit(s[i])
  }

  function Digit(n: nat): char
    requires n < 10
  {
    '0' + n as char
  }

  /** The plain decimal numeral. */
  function Decimal(n: nat): string {
    if n < 10 then [Digit(n)] else Decimal(n / 10) + [Digit(n % 10)]
  }

  /** The number that a run of digits stands for. */
  function ValueOf(digits: string): nat
    requires AllDigits(digits)
  {
    if digits == [] then 0
    else
      assert IsDigit(digits[|digits| - 1]);
      10 * ValueOf(digits[..|digits| - 1]) + (digits[|digits| - 1] - '0') as nat
  }

  /** The numeral of a number stands for that number, and has no leading zero. */
  lemma {:induction false} DecimalReads(n: nat)
    ensures Decimal(n) != [] && AllDigits(Decimal(n)) && ValueOf(Decimal(n)) == n
    ensures n > 0 ==> Decimal(n)[0] != '0'
  {
    if n >= 10 {
      DecimalReads(n / 10);
      assert Decimal(n)[..|Decimal(n)| - 1] == Decimal(n / 10);
    } else {
      assert ValueOf(Decimal(n)[..0]) == 0;
    }
  }
}
