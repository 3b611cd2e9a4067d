/** Decimal numerals as the standard library prints and parses them. */
module Decimal {
  import opened Domain

  const MAX_INT: int := 0x7FFF_FFFF_FFFF_FFFF
  const MIN_INT: int := -0x8000_0000_0000_0000

  predicate IsDigit(c: char) { '0' <= c <= '9' }

  function Digit(c: char): nat
    requires IsDigit(c)
  {
    (c - '0') as int
  }

  predicate AllDigits(s: string) {
    forall i | 0 <= i < |s| :: IsDigit(s[i])
  }

  function Value(s: string): nat
    requires AllDigits(s)
  {
    if s == "" then 0 else Value(s[..|s| - 1]) * 10 + Digit(s[|s| - 1])
  }

  function Itoa(n: nat): string {
    if n < 10 then [n as char + '0'] else Itoa(n / 10) + [(n % 10) as char + '0']
  }

  /** An optional sign and at least one digit, within 64 bits. */
  function Atoi(s: string): Option<int> {
    var signed := s != "" && (s[0] == '-' || s[0] == '+');
    var digits := if signed then s[1..] else s;
    if digits == "" || !AllDigits(digits) then None
    else
      var n: int := Value(digits);
      var v := if signed && s[0] == '-' then -n else n;
      if MIN_INT <= v <= MAX_INT then Some(v) else None
  }

  /** Printing a number gives a non-empty numeral with its value. */
  lemma {:induction false} ItoaValue(n: nat)
    ensures Itoa(n) != "" && AllDigits(Itoa(n)) && Value(Itoa(n)) == n
  {
    if n < 10 {
      assert Itoa(n)[..0] == "";
    } else {
      ItoaValue(n / 10);
      var s := Itoa(n);
      assert s[..|s| - 1] == Itoa(n / 10);
    }
  }

  /** A numeral without a superfluous zero in front. */
  predicate Canonical(s: string) {
    s != "" && AllDigits(s) && (|s| == 1 || s[0] != '0')
  }

  /** Printing never begins with a superfluous zero. */
  lemma {:induction false} ItoaCanonical(n: nat)
    ensures Canonical(Itoa(n))
    ensures n > 0 ==> Itoa(n)[0] != '0'
  {
    if n >= 10 {
      ItoaCanonical(n / 10);
    }
  }

  lemma {:induction false} ValuePositive(s: string)
    requires s != "" && AllDigits(s) && s[0] != '0'
    ensures Value(s) >= 1
    ensures |s| >= 2 ==> Value(s) >= 10
  {
    if |s| >= 2 {
      ValuePositive(s[..|s| - 1]);
    }
  }

  /** The numeral printed is the only one of its value without a superfluous zero. */
  lemma {:induction false} ItoaUnique(s: string)
    requires Canonical(s)
    ensures s == Itoa(Value(s))
  {
    var init, last := s[..|s| - 1], s[|s| - 1];
    assert s == init + [last];
    if |s| == 1 {
      assert init == "";
    } else {
      ValuePositive(s);
      assert Value(s) / 10 == Value(init) && Value(s) % 10 == Digit(last);
      ItoaUnique(init);
    }
  }

  lemma AtoiItoa(n: nat)
    requires n <= MAX_INT
    ensures Atoi(Itoa(n)) == Some(n)
  {
    ItoaValue(n);
    assert IsDigit(Itoa(n)[0]);
  }

  /** With a sign the same holds up to the bounds of 64 bits, and beyond them nothing is parsed. */
  lemma AtoiSigned(n: int)
    requires n >= 0
    ensures Atoi("+" + Itoa(n)) == if n <= MAX_INT then Some(n) else None
    ensures Atoi("-" + Itoa(n)) == if -n >= MIN_INT then Some(-n) else None
    ensures n > MAX_INT ==> Atoi(Itoa(n)) == None
  {
    ItoaValue(n);
    assert ("+" + Itoa(n))[1..] == Itoa(n) && ("-" + Itoa(n))[1..] == Itoa(n);
    assert IsDigit(Itoa(n)[0]);
  }

  /** Nothing else is parsed: what is, is a numeral behind at most one sign, zeros in front allowed, of that value. */
  lemma AtoiReads(s: string)
    requires Atoi(s).Some?
    ensures exists digits :: digits != "" && AllDigits(digits) && var n: int := Value(digits);
              (s == digits && Atoi(s) == Some(n)) || (s == "+" + digits && Atoi(s) == Some(n)) || (s == "-" + digits && Atoi(s) == Some(-n))
  {
    var digits := if s[0] == '-' || s[0] == '+' then s[1..] else s;
    assert s == [s[0]] + s[1..];
  }
}
