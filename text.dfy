/** String helpers used by the normaliser and by the file-name formatting:
    deleting apostrophes from a title, and decimal rendering of numbers as
    Python's `str(n)` and `f"{n:02d}"` produce it. */
module Text {

  const Apostrophe: char := '\''

  /** `title.str.replace("'", "")`: every apostrophe deleted, every other
      character kept in order. */
  function StripApostrophes(s: string): (r: string)
    ensures Apostrophe !in r
    ensures |r| <= |s|
  {
    if s == [] then []
    else if s[0] == Apostrophe then StripApostrophes(s[1..])
    else [s[0]] + StripApostrophes(s[1..])
  }

  /** Nothing but apostrophes is removed: every other character occurs as
      often in the result as in the input. */
  lemma {:induction false} StripKeepsOthers(s: string, c: char)
    requires c != Apostrophe
    ensures multiset(StripApostrophes(s))[c] == multiset(s)[c]
  {
    if s != [] {
      assert s == [s[0]] + s[1..];
      StripKeepsOthers(s[1..], c);
    }
  }

  /** Deleting distributes over concatenation; with the singleton case below
      this determines StripApostrophes completely. */
  lemma {:induction false} StripConcat(a: string, b: string)
    ensures StripApostrophes(a + b) == StripApostrophes(a) + StripApostrophes(b)
  {
    if a == [] {
      assert a + b == b;
    } else {
      assert (a + b)[0] == a[0];
      assert (a + b)[1..] == a[1..] + b;
      StripConcat(a[1..], b);
    }
  }

  lemma StripSingle(c: char)
    ensures StripApostrophes([c]) == if c == Apostrophe then [] else [c]
  {
    assert [c][1..] == [];
  }

  /** A title without apostrophes is left exactly as it is. */
  lemma {:induction false} StripNoApostrophe(s: string)
    requires Apostrophe !in s
    ensures StripApostrophes(s) == s
  {
    if s != [] {
      assert s[0] in s;
      assert forall c :: c in s[1..] ==> c in s;
      StripNoApostrophe(s[1..]);
    }
  }

  /** Normalising a title twice is the same as normalising it once. */
  lemma StripIdempotent(s: string)
    ensures StripApostrophes(StripApostrophes(s)) == StripApostrophes(s)
  {
    StripNoApostrophe(StripApostrophes(s));
  }

  /** "Today's Ride" becomes "Todays Ride". */
  lemma StripExample()
    ensures StripApostrophes("Today's Ride") == "Todays Ride"
  {
    var a, b := "Today", "s Ride";
    assert "Today's Ride" == a + ([Apostrophe] + b);
    assert "Todays Ride" == a + b;
    StripNoApostrophe(a);
    StripNoApostrophe(b);
    StripConcat([Apostrophe], b);
    StripSingle(Apostrophe);
    StripConcat(a, [Apostrophe] + b);
  }

  predicate IsDigit(c: char) {
    '0' <= c <= '9'
  }

  predicate AllDigits(s: string) {
    forall i :: 0 <= i < |s| ==> IsDigit(s[i])
  }

  function DigitChar(d: nat): (c: char)
    requires d < 10
    ensures IsDigit(c) && c as int - '0' as int == d
  {
    ('0' as int + d) as char
  }

  /** The numeric value of a string of decimal digits. */
  function DigitsValue(s: string): nat
    requires AllDigits(s)
  {
    if s == [] then 0
    else DigitsValue(s[..|s| - 1]) * 10 + (s[|s| - 1] as int - '0' as int)
  }

  /** `str(n)` for a non-negative integer: no sign, no leading zeros. */
  function Decimal(n: nat): (s: string)
    ensures 1 <= |s| && AllDigits(s)
    ensures |s| == 1 || s[0] != '0'
    ensures n < 10 <==> |s| == 1
  {
    if n < 10 then [DigitChar(n)] else Decimal(n / 10) + [DigitChar(n % 10)]
  }

  /** Reading the digits back gives the number: `str` loses nothing. */
  lemma {:induction false} DecimalRoundTrip(n: nat)
    ensures DigitsValue(Decimal(n)) == n
  {
    if n >= 10 {
      var s := Decimal(n);
      assert s[..|s| - 1] == Decimal(n / 10);
      DecimalRoundTrip(n / 10);
    } else {
      var s := Decimal(n);
      assert s[..|s| - 1] == [];
    }
  }

  lemma DecimalInjective(m: nat, n: nat)
    requires Decimal(m) == Decimal(n)
    ensures m == n
  {
    DecimalRoundTrip(m);
    DecimalRoundTrip(n);
  }

  /** `f"{n:02d}"` for 0 <= n < 100: exactly two digits, zero padded. */
  function Pad2(n: nat): (s: string)
    requires n < 100
    ensures |s| == 2 && AllDigits(s)
  {
    [DigitChar(n / 10), DigitChar(n % 10)]
  }

  lemma Pad2RoundTrip(n: nat)
    requires n < 100
    ensures DigitsValue(Pad2(n)) == n
  {
    var s := Pad2(n);
    assert s[..1][..0] == [];
    assert DigitsValue(s[..1]) == n / 10;
    assert s[..|s| - 1] == s[..1];
  }
}
