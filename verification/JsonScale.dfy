/** How many digits of a fraction the reader takes into a number's significand. */
module JsonScale {
  import opened Bytes
  import opened JsonLexer

  /**
   * Behind a whole part other than zero, as many as bring the digits to eighteen; behind a zero, seventeen from the first
   * that is none.
   */
  function ScaleOf(whole: Text, d: Text): nat {
    var room := if whole == ['0'] then Zeros(d) + 17 else if |whole| < 18 then 18 - |whole| else 0;
    if |d| <= room then |d| else room
  }

  /** The zeros at the beginning of some digits. */
  function Zeros(d: Text): (r: nat)
    ensures r <= |d|
  {
    if d != [] && d[0] == '0' then 1 + Zeros(d[1..]) else 0
  }

  // ---------------------------------------------------------------- how large a number is

  function Pow10(n: nat): (r: nat)
    ensures r >= 1
  {
    if n == 0 then 1 else 10 * Pow10(n - 1)
  }

  lemma {:induction false} PowersGrow(m: nat, n: nat)
    requires m <= n
    ensures Pow10(m) <= Pow10(n)
  {
    if m < n {
      PowersGrow(m, n - 1);
    }
  }

  lemma {:induction false} ValueBounds(d: Text)
    requires AllDigits(d)
    ensures DecimalValue(d) < Pow10(|d|)
    ensures d != [] && d[0] != '0' ==> Pow10(|d| - 1) <= DecimalValue(d)
  {
    if d != [] {
      ValueBounds(d[..|d| - 1]);
    }
  }

  lemma {:induction false} SeventeenDigits()
    ensures Pow10(17) == 100_000_000_000_000_000 && Pow10(18) == 10 * Pow10(17)
  {
    assert Pow10(4) == 10000;
    assert Pow10(8) == 10000 * 10000;
    assert Pow10(12) == 10000 * 10000 * 10000;
    assert Pow10(16) == 10000 * 10000 * 10000 * 10000;
  }

  // ---------------------------------------------------------------- the digits taken

  /** Digits, and nothing that would go on with them. */
  predicate DigitsAt(s: Text, p: nat, d: Text) {
    StandsAt(s, p, d) && AllDigits(d) && !IsDigit(Peek(s, p + |d|))
  }

  lemma {:induction false} DigitsMore(s: Text, p: nat, d: Text)
    requires DigitsAt(s, p, d)
    ensures IsDigit(Peek(s, p)) <==> d != []
    ensures d != [] ==> s[p] == d[0] && DigitsAt(s, p + 1, d[1..])
  {
    if d != [] {
      assert d == [d[0]] + d[1..];
      StandsFirst(s, p, d[0], d[1..]);
    }
  }

  function Least(a: nat, b: nat): nat {
    if a <= b then a else b
  }

  /** How many more digits a significand takes. */
  function Room(g: Significand): nat {
    if g.digits < 17 then 17 - g.digits else 0
  }

  lemma {:induction false} RoundedTakes(s: Text, g: Significand, d: Text)
    requires DigitsAt(s, g.pos, d) && g.value > 0
    ensures TakeRounded(s, g).scale == g.scale + Least(|d|, Room(g))
    decreases |d|
  {
    DigitsMore(s, g.pos, d);
    if d != [] {
      if g.digits < 17 {
        RoundedTakes(s, Significand(g.pos + 1, g.value * 10 + DigitValue(s[g.pos]), g.digits + 1, g.scale + 1), d[1..]);
      } else {
        RoundedTakes(s, g.(pos := g.pos + 1), d[1..]);
      }
    }
  }

  /** The count of digits says how large the significand is. */
  predicate Counted(g: Significand) {
    g.value > 0 && Pow10(g.digits) <= 10 * g.value
  }

  /** One more digit of an exact significand. */
  function NextExact(g: Significand, c: Byte): Significand
    requires IsDigit(c)
  {
    var v := g.value * 10 + DigitValue(c);
    Significand(g.pos + 1, v, if v != 0 then g.digits + 1 else g.digits, g.scale + 1)
  }

  lemma {:induction false} ExactTakes(s: Text, g: Significand, d: Text)
    requires DigitsAt(s, g.pos, d) && Counted(g)
    ensures TakeRounded(s, TakeExact(s, g)).scale == g.scale + Least(|d|, Room(g))
    decreases |d|
  {
    DigitsMore(s, g.pos, d);
    if d != [] && g.value <= 0x1F_FFFF_FFFF_FFFF {
      CountBelow(g);
      assert TakeExact(s, g) == TakeExact(s, NextExact(g, s[g.pos]));
      ExactTakes(s, NextExact(g, s[g.pos]), d[1..]);
    } else {
      assert TakeExact(s, g) == g;
      RoundedTakes(s, g, d);
    }
  }

  /** A significand of 53 bits has fewer than seventeen digits. */
  lemma {:induction false} CountBelow(g: Significand)
    requires Counted(g) && g.value <= 0x1F_FFFF_FFFF_FFFF
    ensures g.digits < 17
  {
    if g.digits >= 17 {
      SeventeenDigits();
      PowersGrow(17, g.digits);
    }
  }

  lemma {:induction false} ZeroTakes(s: Text, g: Significand, d: Text)
    requires DigitsAt(s, g.pos, d) && g.value == 0 && g.digits == 0
    ensures TakeRounded(s, TakeExact(s, g)).scale == g.scale + Least(|d|, Zeros(d) + 17)
    decreases |d|
  {
    DigitsMore(s, g.pos, d);
    if d != [] {
      var next := NextExact(g, s[g.pos]);
      assert TakeExact(s, g) == TakeExact(s, next);
      if d[0] == '0' {
        ZeroTakes(s, next, d[1..]);
      } else {
        assert Pow10(1) == 10;
        ExactTakes(s, next, d[1..]);
      }
    }
  }

  // ---------------------------------------------------------------- the whole part before

  /** A whole part beyond the integer types leaves no room. */
  lemma {:induction false} LongWhole(s: Text, minus: bool, q: nat, m: nat)
    requires q < m <= |s| && AllDigits(s[q..m]) && IntegerEvent(minus, DecimalValue(s[q..m])).None?
    ensures m - q >= 19 && IntegerDigits(s, minus, q, m) >= 17
    decreases m
  {
    ValueBounds(s[q..m]);
    SeventeenDigits();
    if m - q < 19 {
      PowersGrow(m - q, 18);
      assert false;
    }
    assert s[q..m - 1] == s[q..m][..m - 1 - q];
    if IntegerEvent(minus, DecimalValue(s[q..m - 1])).None? {
      LongWhole(s, minus, q, m - 1);
    }
  }

  /** The scale of a fraction in a text. */
  lemma {:induction false} ScaleIs(s: Text, minus: bool, q: nat, m: nat, whole: Text, d: Text)
    requires q < m && StandsAt(s, m, ['.'] + d) && AllDigits(d) && !IsDigit(Peek(s, m + 1 + |d|))
    requires s[q..m] == whole && AllDigits(whole) && (whole[0] == '0' ==> |whole| == 1)
    ensures ScanFraction(s, minus, q, m).scale == ScaleOf(whole, d)
  {
    StandsFirst(s, m, '.', d);
    var n := DecimalValue(whole);
    var g := Significand(m + 1, n, IntegerDigits(s, minus, q, m), 0);
    ValueBounds(whole);
    if IntegerEvent(minus, n).None? {
      LongWhole(s, minus, q, m);
      RoundedTakes(s, g, d);
    } else if whole[0] == '0' {
      assert whole == ['0'];
      ZeroTakes(s, g, d);
    } else {
      ExactTakes(s, g, d);
    }
  }
}
