/**
 * Go's `strconv.Itoa`, which renders the port, and the canonical decimal
 * reading that undoes it.
 */
module GoStrconv {
  import opened Outcomes

  predicate IsDigit(c: char)
  {
    '0' <= c <= '9'
  }

  predicate AllDigits(s: string)
  {
    forall i :: 0 <= i < |s| ==> IsDigit(s[i])
  }

  /** A digit string without superfluous leading zeros. */
  predicate IsCanonicalNatural(s: string)
  {
    |s| > 0 && AllDigits(s) && (s[0] == '0' ==> s == "0")
  }

  function DigitChar(d: nat): (c: char)
    requires d < 10
    ensures IsDigit(c) && DigitValue(c) == d
  {
    (48 + d) as char
  }

  function DigitValue(c: char): nat
    requires IsDigit(c)
  {
    c as int - 48
  }

  /** The decimal digits of `n`, most significant first. */
  function Digits(n: nat): (s: string)
    ensures IsCanonicalNatural(s)
  {
    if n < 10 then [DigitChar(n)] else Digits(n / 10) + [DigitChar(n % 10)]
  }

  /** `strconv.Itoa`: base 10, a leading '-' for negative values. */
  function Itoa(i: int): (s: string)
    ensures |s| > 0
    ensures i < 0 <==> s[0] == '-'
  {
    if i < 0 then "-" + Digits(-i) else Digits(i)
  }

  /** The number a digit string denotes. */
  function Value(s: string): nat
    requires AllDigits(s)
  {
    if |s| == 0 then 0 else Value(s[..|s| - 1]) * 10 + DigitValue(s[|s| - 1])
  }

  /**
   * Reads back exactly the strings Itoa produces: an optional '-' followed by
   * a canonical digit string, where "-0" is refused.
   */
  function ParseInt(s: string): Option<int>
  {
    if |s| > 0 && s[0] == '-' then
      if IsCanonicalNatural(s[1..]) && s[1..] != "0" then
        var v: int := Value(s[1..]); Some(-v)
      else None
    else if IsCanonicalNatural(s) then Some(Value(s))
    else None
  }

  lemma {:induction false} ValueOfDigits(n: nat)
    ensures Value(Digits(n)) == n
  {
    if n >= 10 {
      ValueOfDigits(n / 10);
      var d := Digits(n / 10);
      assert (d + [DigitChar(n % 10)])[..|d|] == d;
    }
  }

  lemma {:induction false} ValuePositive(s: string)
    requires IsCanonicalNatural(s) && s != "0"
    ensures Value(s) > 0
  {
    if |s| > 1 {
      ValuePositive(s[..|s| - 1]);
    }
  }

  lemma {:induction false} DigitsOfValue(s: string)
    requires IsCanonicalNatural(s)
    ensures Digits(Value(s)) == s
  {
    if |s| > 1 {
      var p := s[..|s| - 1];
      ValuePositive(p);
      DigitsOfValue(p);
      assert p + [s[|s| - 1]] == s;
    }
  }

  /** Every rendering of a port reads back as that port. */
  lemma ParseItoa(i: int)
    ensures ParseInt(Itoa(i)) == Some(i)
  {
    if i < 0 {
      ValueOfDigits(-i);
      assert ("-" + Digits(-i))[1..] == Digits(-i);
      assert Digits(-i) != "0";
    } else {
      ValueOfDigits(i);
    }
  }

  /** Every string ParseInt accepts is the rendering of what it reads. */
  lemma ItoaParse(s: string)
    requires ParseInt(s).Some?
    ensures Itoa(ParseInt(s).value) == s
  {
    if |s| > 0 && s[0] == '-' {
      DigitsOfValue(s[1..]);
      ValuePositive(s[1..]);
      assert "-" + s[1..] == s;
    } else {
      DigitsOfValue(s);
    }
  }
}
