/** Characters, C strings in buffers, and decimal numbers. */
module Text {

  const NUL := '\0'

  predicate IsDigit(c: char) { '0' <= c <= '9' }

  function DigitValue(c: char): nat
    requires IsDigit(c)
  {
    c as int - '0' as int
  }

  /** isspace of the C locale: blank, tab, newline, vertical tab, form feed, carriage return. */
  predicate IsSpace(c: char) { c == ' ' || 9 <= c as int <= 13 }

  lemma SpaceIs(c: char)
    ensures IsSpace(c) <==> c in [' ', '\t', '\n', '\U{0B}', '\U{0C}', '\r']
  {
  }

  // ------------------------------------------------------------ numbers

  function Digits(n: nat): (s: string)
    ensures s != [] && forall i :: 0 <= i < |s| ==> IsDigit(s[i])
  {
    var d := ['0' + (n % 10) as char];
    if n < 10 then d else Digits(n / 10) + d
  }

  /** What printf and the Arduino String class print for an integer. */
  function Decimal(n: int): (s: string)
    ensures s != []
  {
    if n < 0 then "-" + Digits(-n) else Digits(n)
  }

  /** The number the leading digits of s continue, having read acc already. */
  function Leading(s: string, acc: nat): nat {
    if s == [] || !IsDigit(s[0]) then acc else Leading(s[1..], 10 * acc + DigitValue(s[0]))
  }

  function SkipSpaces(s: string): string {
    if s != [] && IsSpace(s[0]) then SkipSpaces(s[1..]) else s
  }

  /** atoi: leading blanks, an optional sign, then digits up to the first other character. */
  function Atoi(s: string): int {
    var t := SkipSpaces(s);
    if t != [] && t[0] == '-' then -(Leading(t[1..], 0) as int)
    else if t != [] && t[0] == '+' then Leading(t[1..], 0)
    else Leading(t, 0)
  }

  lemma {:induction false} LeadingDigits(n: nat, tail: string)
    ensures Leading(Digits(n) + tail, 0) == Leading(tail, n)
  {
    var d := ['0' + (n % 10) as char];
    assert DigitValue(d[0]) == n % 10;
    assert (d + tail)[1..] == tail;
    if n >= 10 {
      assert Digits(n) + tail == Digits(n / 10) + (d + tail);
      LeadingDigits(n / 10, d + tail);
    }
  }

  lemma LeadingStops(tail: string, acc: nat)
    requires tail == [] || !IsDigit(tail[0])
    ensures Leading(tail, acc) == acc
  {
  }

  /** Reading back a printed integer, whatever non-digit follows it. */
  lemma AtoiDecimal(n: int, tail: string)
    requires tail == [] || !IsDigit(tail[0])
    ensures Atoi(Decimal(n) + tail) == n
  {
    hide Leading;
    var s := Decimal(n) + tail;
    LeadingStops(tail, if n < 0 then -n else n);
    if n < 0 {
      assert s[0] == '-' && s[1..] == Digits(-n) + tail;
      LeadingDigits(-n, tail);
    } else {
      assert s[0] == Digits(n)[0];
      LeadingDigits(n, tail);
    }
  }

  lemma {:induction false} SkipsSpaces(blanks: string, s: string)
    requires (forall i :: 0 <= i < |blanks| ==> IsSpace(blanks[i])) && (s == [] || !IsSpace(s[0]))
    ensures SkipSpaces(blanks + s) == s
  {
    if blanks == [] {
      assert blanks + s == s;
    } else {
      assert (blanks + s)[1..] == blanks[1..] + s;
      SkipsSpaces(blanks[1..], s);
    }
  }

  /** atoi skips blanks and accepts a plus sign; without digits it yields 0. */
  lemma AtoiForms(blanks: string, n: nat, tail: string)
    requires forall i :: 0 <= i < |blanks| ==> IsSpace(blanks[i])
    requires tail == [] || (!IsDigit(tail[0]) && tail[0] != '-' && tail[0] != '+' && !IsSpace(tail[0]))
    ensures Atoi(blanks + ("+" + Digits(n) + tail)) == n
    ensures Atoi(blanks + ("-" + Digits(n) + tail)) == -(n as int)
    ensures Atoi(blanks + (Digits(n) + tail)) == n
    ensures Atoi(blanks + tail) == 0
  {
    hide Digits;
    SkipsSpaces(blanks, "+" + Digits(n) + tail);
    SkipsSpaces(blanks, "-" + Digits(n) + tail);
    SkipsSpaces(blanks, Digits(n) + tail);
    SkipsSpaces(blanks, tail);
    assert ("+" + Digits(n) + tail)[1..] == ("-" + Digits(n) + tail)[1..] == Digits(n) + tail;
    LeadingDigits(n, tail);
    LeadingStops(tail, n);
    LeadingStops(tail, 0);
  }

  /** Decimal numbers consist of digits and a sign. */
  lemma DecimalChars(n: int, c: char)
    requires c in Decimal(n)
    ensures IsDigit(c) || c == '-'
  {
  }

  function Pow10(k: nat): nat { if k == 0 then 1 else 10 * Pow10(k - 1) }

  lemma {:induction false} DigitsLength(n: nat, k: nat)
    requires k >= 1 && n < Pow10(k)
    ensures |Digits(n)| <= k
  {
    if n >= 10 {
      assert Pow10(1) == 10;
      DigitsLength(n / 10, k - 1);
    }
  }

  // ------------------------------------------------------------ C strings

  /** The buffer holds the C string s at position p: its characters and the terminating NUL. */
  predicate Holds(b: seq<char>, p: nat, s: string) {
    && p + |s| < |b|
    && b[p..p + |s|] == s
    && b[p + |s|] == NUL
    && NUL !in s
  }

  /** Writing a NUL inside a C string cuts it there. */
  lemma Cut(b: seq<char>, p: nat, s: string, k: nat)
    requires Holds(b, p, s) && k <= |s|
    ensures Holds(b[p + k := NUL], p, s[..k])
  {
    var b' := b[p + k := NUL];
    assert b'[p..p + k] == b[p..p + |s|][..k];
  }

  /** A C string continues as a C string from any of its positions. */
  lemma Suffix(b: seq<char>, p: nat, s: string, k: nat)
    requires Holds(b, p, s) && k <= |s|
    ensures Holds(b, p + k, s[k..])
  {
    assert b[p + k..p + |s|] == b[p..p + |s|][k..];
  }
}
