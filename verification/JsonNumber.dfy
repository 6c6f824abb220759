/** The number scanner of the JSON reader, with its 32-bit and 64-bit accumulators, against the decimal value of the digits. */
module JsonNumber {
  import opened Bytes
  import opened JsonLexer

  newtype uint32 = x: int | 0 <= x < 0x1_0000_0000
  newtype uint64 = x: int | 0 <= x < 0x1_0000_0000_0000_0000

  lemma {:induction false} NextDigit(s: Text, q: nat, p: nat)
    requires q <= p < |s| && AllDigits(s[q..p]) && IsDigit(s[p])
    ensures AllDigits(s[q..p + 1])
    ensures DecimalValue(s[q..p + 1]) == 10 * DecimalValue(s[q..p]) + DigitValue(s[p])
  {
    assert s[q..p + 1][..p - q] == s[q..p];
  }

  lemma {:induction false} MoreDigitsNoSmaller(s: Text, q: nat, p: nat, e: nat)
    requires q <= p <= e <= |s| && AllDigits(s[q..e])
    ensures AllDigits(s[q..p]) && DecimalValue(s[q..p]) <= DecimalValue(s[q..e])
    decreases e
  {
    assert forall i :: q <= i < e ==> s[i] == s[q..e][i - q];
    if p < e {
      assert AllDigits(s[q..e - 1]);
      NextDigit(s, q, e - 1);
      MoreDigitsNoSmaller(s, q, p, e - 1);
    }
  }

  /** The significant digits are those of the longest prefix that the integer accumulators hold. */
  lemma {:induction false} LongestFittingPrefix(s: Text, minus: bool, q: nat, p: nat, e: nat)
    requires q < p < e <= |s| && AllDigits(s[q..e]) && AllDigits(s[q..p]) && AllDigits(s[q..p + 1])
    requires IntegerEvent(minus, DecimalValue(s[q..p])).Some?
    requires IntegerEvent(minus, DecimalValue(s[q..p + 1])).None?
    ensures IntegerEvent(minus, DecimalValue(s[q..e])).None?
    ensures IntegerDigits(s, minus, q, e) == p - q - 1
    decreases e
  {
    MoreDigitsNoSmaller(s, q, p + 1, e);
    assert s[q..e - 1] == s[q..e][..e - 1 - q];
    if p + 1 < e {
      LongestFittingPrefix(s, minus, q, p, e - 1);
    }
  }

  lemma {:induction false} DigitsEndUnique(s: Text, p: nat, r: nat)
    requires p <= r <= |s| && AllDigits(s[p..r]) && !IsDigit(Peek(s, r))
    ensures DigitsEnd(s, p) == r
    decreases r - p
  {
    if p < r {
      assert s[p] == s[p..r][0];
      assert s[p..r][1..] == s[p + 1..r];
      DigitsEndUnique(s, p + 1, r);
    }
  }

  function MaxNarrow(minus: bool): nat { if minus then 0x8000_0000 else 0xFFFF_FFFF }

  function MaxWide(minus: bool): nat { if minus then 0x8000_0000_0000_0000 else 0xFFFF_FFFF_FFFF_FFFF }

  /** The 32-bit accumulation loop, which starts at the digit at `q` and stops before a digit that does not fit. */
  method AccumulateNarrow(s: Text, minus: bool, q: nat) returns (pos: nat, i: uint32, use64bit: bool, significandDigit: nat)
    requires q < |s| && IsDigit(s[q])
    ensures q < pos <= |s| && AllDigits(s[q..pos]) && significandDigit == pos - q - 1
    ensures i as nat == DecimalValue(s[q..pos]) <= MaxNarrow(minus)
    ensures use64bit == IsDigit(Peek(s, pos))
    ensures use64bit ==> 10 * i as nat + DigitValue(s[pos]) > MaxNarrow(minus)
  {
    pos := q + 1;
    i := DigitValue(s[q]) as uint32;
    significandDigit := 0;
    var limit: uint32 := if minus then 214748364 else 429496729;
    var last: Byte := if minus then '8' else '5';
    assert s[q..pos] == [s[q]] && [s[q]][..0] == [];
    while IsDigit(Peek(s, pos))
      invariant q < pos <= |s| && AllDigits(s[q..pos]) && significandDigit == pos - q - 1
      invariant i as nat == DecimalValue(s[q..pos]) <= MaxNarrow(minus)
      decreases |s| - pos
    {
      if i >= limit {
        if i != limit || s[pos] > last {
          return pos, i, true, significandDigit;
        }
      }
      NextDigit(s, q, pos);
      i := i * 10 + DigitValue(s[pos]) as uint32;
      pos := pos + 1;
      significandDigit := significandDigit + 1;
    }
    return pos, i, false, significandDigit;
  }

  /** The 64-bit accumulation loop, which goes on from a 32-bit value whose next digit did not fit. */
  method AccumulateWide(s: Text, minus: bool, q: nat, start: nat, i: uint32)
    returns (pos: nat, i64: uint64, useDouble: bool, significandDigit: nat)
    requires q < start < |s| && AllDigits(s[q..start]) && IsDigit(s[start])
    requires i as nat == DecimalValue(s[q..start]) <= MaxNarrow(minus)
    requires 10 * i as nat + DigitValue(s[start]) > MaxNarrow(minus)
    ensures start < pos <= |s| && AllDigits(s[q..pos]) && significandDigit == pos - q - 1
    ensures MaxNarrow(minus) < i64 as nat == DecimalValue(s[q..pos]) <= MaxWide(minus)
    ensures useDouble == IsDigit(Peek(s, pos))
    ensures useDouble ==> 10 * i64 as nat + DigitValue(s[pos]) > MaxWide(minus)
  {
    pos := start;
    i64 := i as uint64;
    significandDigit := start - q - 1;
    var limit: uint64 := if minus then 0x0CCC_CCCC_CCCC_CCCC else 0x1999_9999_9999_9999;
    var last: Byte := if minus then '8' else '5';
    while IsDigit(Peek(s, pos))
      invariant start <= pos <= |s| && AllDigits(s[q..pos]) && significandDigit == pos - q - 1
      invariant i64 as nat == DecimalValue(s[q..pos]) <= MaxWide(minus)
      invariant if pos == start then i64 as nat == i as nat else i64 as nat > MaxNarrow(minus)
      decreases |s| - pos
    {
      if i64 >= limit {
        if i64 != limit || s[pos] > last {
          return pos, i64, true, significandDigit;
        }
      }
      NextDigit(s, q, pos);
      i64 := i64 * 10 + DigitValue(s[pos]) as uint64;
      pos := pos + 1;
      significandDigit := significandDigit + 1;
    }
    return pos, i64, false, significandDigit;
  }

  /** Passes the digits that no integer type holds; `d` is what the double stands for before rounding. */
  method ForceDouble(s: Text, q: nat, start: nat) returns (pos: nat, d: nat)
    requires q < start <= |s| && AllDigits(s[q..start])
    ensures start <= pos <= |s| && AllDigits(s[q..pos]) && !IsDigit(Peek(s, pos)) && d == DecimalValue(s[q..pos])
  {
    pos := start;
    d := DecimalValue(s[q..start]);
    while IsDigit(Peek(s, pos))
      invariant start <= pos <= |s| && AllDigits(s[q..pos]) && d == DecimalValue(s[q..pos])
      decreases |s| - pos
    {
      NextDigit(s, q, pos);
      d := d * 10 + DigitValue(s[pos]);
      pos := pos + 1;
    }
  }

  /** The fraction digits that extend the 64-bit significand, as long as it has at most 53 bits. */
  method ExactFraction(s: Text, start: nat, whole: uint64, significandDigit: nat) returns (r: Significand)
    requires start <= |s|
    ensures r == TakeExact(s, Significand(start, whole as nat, significandDigit, 0))
  {
    var pos, i64, digits, scale := start, whole, significandDigit, 0;
    while IsDigit(Peek(s, pos))
      invariant start <= pos <= |s|
      invariant TakeExact(s, Significand(start, whole as nat, significandDigit, 0))
             == TakeExact(s, Significand(pos, i64 as nat, digits, scale))
      decreases |s| - pos
    {
      if i64 > 0x1F_FFFF_FFFF_FFFF {
        break;
      } else {
        i64 := i64 * 10 + DigitValue(s[pos]) as uint64;
        pos, scale := pos + 1, scale + 1;
        if i64 != 0 {
          digits := digits + 1;
        }
      }
    }
    return Significand(pos, i64 as nat, digits, scale);
  }

  /** The fraction loops. */
  method ParseFraction(s: Text, start: nat, whole: nat, useDouble: bool, significandDigit: nat) returns (pos: nat, scale: nat)
    requires start <= |s|
    requires !useDouble ==> whole < 0x1_0000_0000_0000_0000
    ensures var r := FractionFrom(s, Significand(start, whole, significandDigit, 0), useDouble);
            pos == r.pos && scale == r.scale
  {
    var g := Significand(start, whole, significandDigit, 0);
    if !useDouble {
      g := ExactFraction(s, start, whole as uint64, significandDigit);
    }
    ghost var g1 := g;
    while IsDigit(Peek(s, g.pos))
      invariant g.pos <= |s|
      invariant TakeRounded(s, g1) == TakeRounded(s, g)
      decreases |s| - g.pos
    {
      if g.digits < 17 {
        var d := g.value * 10 + DigitValue(s[g.pos]);
        g := Significand(g.pos + 1, d, if d > 0 then g.digits + 1 else g.digits, g.scale + 1);
      } else {
        g := g.(pos := g.pos + 1);
      }
    }
    return g.pos, g.scale;
  }

  /** The digits of a negative exponent; once the value is far out of range they are only passed over. */
  method NegativeExponent(s: Text, q: nat, scale: nat) returns (pos: nat)
    requires q < |s| && IsDigit(s[q])
    ensures pos == DigitsEnd(s, q)
  {
    var exp := DigitValue(s[q]);
    pos := q + 1;
    var maxExp := (2147483639 - scale) / 10;
    while IsDigit(Peek(s, pos))
      invariant q < pos <= |s| && DigitsEnd(s, q) == DigitsEnd(s, pos)
      decreases |s| - pos
    {
      exp := exp * 10 + DigitValue(s[pos]);
      pos := pos + 1;
      if exp > maxExp {
        while IsDigit(Peek(s, pos))
          invariant q < pos <= |s| && DigitsEnd(s, q) == DigitsEnd(s, pos)
          decreases |s| - pos
        {
          pos := pos + 1;
        }
      }
    }
  }

  /** The digits of a positive exponent, refused as soon as the value is too large. */
  method PositiveExponent(s: Text, q: nat, scale: nat) returns (pos: nat, tooBig: bool)
    requires q < |s| && IsDigit(s[q])
    ensures tooBig == (DecimalValue(s[q..DigitsEnd(s, q)]) > 308 + scale)
    ensures !tooBig ==> pos == DigitsEnd(s, q)
  {
    pos := q + 1;
    var exp := DigitValue(s[q]);
    var maxExp := 308 + scale;
    ghost var e := DigitsEnd(s, q);
    assert s[q..pos] == [s[q]] && [s[q]][..0] == [];
    while IsDigit(Peek(s, pos))
      invariant q < pos <= |s| && AllDigits(s[q..pos]) && exp == DecimalValue(s[q..pos]) <= maxExp
      decreases |s| - pos
    {
      NextDigit(s, q, pos);
      exp := exp * 10 + DigitValue(s[pos]);
      pos := pos + 1;
      if exp > maxExp {
        DigitsRunOn(s, q, pos);
        MoreDigitsNoSmaller(s, q, pos, e);
        return pos, true;
      }
    }
    DigitsEndUnique(s, q, pos);
    return pos, false;
  }

  /** The exponent after its letter. */
  method ParseExponent(s: Text, startOffset: nat, start: nat, scale: nat) returns (r: Scan<()>)
    requires start <= |s|
    ensures r == ScanExponent(s, startOffset, start, scale)
  {
    var pos := start;
    var expMinus := false;
    if Peek(s, pos) == '+' {
      pos := pos + 1;
    } else if Peek(s, pos) == '-' {
      pos, expMinus := pos + 1, true;
    }
    if !IsDigit(Peek(s, pos)) {
      return Bad(NumberMissExponent, pos);
    }
    if expMinus {
      pos := NegativeExponent(s, pos, scale);
    } else {
      var tooBig;
      pos, tooBig := PositiveExponent(s, pos, scale);
      if tooBig {
        return Bad(NumberTooBig, startOffset);
      }
    }
    return Found(pos, ());
  }

  /** A run of digits lies inside the maximal one. */
  lemma {:induction false} DigitsRunOn(s: Text, q: nat, p: nat)
    requires q <= p <= |s| && AllDigits(s[q..p])
    ensures p <= DigitsEnd(s, q)
    decreases p - q
  {
    if q < p {
      assert s[q] == s[q..p][0];
      assert s[q..p][1..] == s[q + 1..p];
      DigitsRunOn(s, q + 1, p);
    }
  }

  /** The integer part: its value, how wide an accumulator it needs, and its significant digits. */
  method ParseInteger(s: Text, minus: bool, q: nat)
    returns (pos: nat, whole: nat, use64bit: bool, useDouble: bool, significandDigit: nat)
    requires q < |s| && IsDigit(s[q])
    ensures q < pos <= |s| && AllDigits(s[q..pos])
    ensures pos == if s[q] == '0' then q + 1 else DigitsEnd(s, q)
    ensures whole == DecimalValue(s[q..pos]) && significandDigit == IntegerDigits(s, minus, q, pos)
    ensures useDouble == IntegerEvent(minus, whole).None?
    ensures use64bit == (whole > MaxNarrow(minus))
  {
    useDouble := false;
    if s[q] == '0' {
      pos, whole, use64bit, significandDigit := q + 1, 0, false, 0;
      assert s[q..pos] == ['0'] && ['0'][..0] == [];
      assert DecimalValue(s[q..pos]) == 0;
      return;
    }
    var i;
    pos, i, use64bit, significandDigit := AccumulateNarrow(s, minus, q);
    whole := i as nat;
    if use64bit {
      var i64;
      pos, i64, useDouble, significandDigit := AccumulateWide(s, minus, q, pos, i);
      whole := i64 as nat;
    }
    if useDouble {
      ghost var fit := pos;
      NextDigit(s, q, fit);
      pos, whole := ForceDouble(s, q, pos);
      LongestFitting(s, minus, q, fit, pos);
    }
    DigitsEndUnique(s, q, pos);
  }

  lemma {:induction false} LongestFitting(s: Text, minus: bool, q: nat, fit: nat, e: nat)
    requires q < fit <= e <= |s| && !IsDigit(Peek(s, e)) && AllDigits(s[q..e]) && AllDigits(s[q..fit])
    requires MaxNarrow(minus) < DecimalValue(s[q..fit]) <= MaxWide(minus)
    requires IsDigit(Peek(s, fit)) && 10 * DecimalValue(s[q..fit]) + DigitValue(s[fit]) > MaxWide(minus)
    ensures DecimalValue(s[q..e]) > MaxWide(minus)
    ensures IntegerDigits(s, minus, q, e) == fit - q - 1
  {
    NextDigit(s, q, fit);
    MoreDigitsNoSmaller(s, q, fit + 1, e);
    LongestFittingPrefix(s, minus, q, fit, e);
  }

  /**
   * The whole number scanner: exact integers in the narrowest type of their sign, doubles only where the literal has a
   * fraction or an exponent or lies outside the 64-bit ranges, and no accumulator ever leaves its width.
   */
  method ParseNumber(s: Text, f: Settings, startOffset: nat) returns (r: Scan<Event>)
    requires startOffset <= |s|
    ensures r == ScanNumber(s, f, startOffset)
  {
    var pos := startOffset;
    var minus := Peek(s, pos) == '-';
    if minus {
      pos := pos + 1;
    }
    if !IsDigit(Peek(s, pos)) {
      return Bad(ValueInvalid, pos);
    }
    var q := pos;
    var whole, use64bit, useDouble, significandDigit;
    pos, whole, use64bit, useDouble, significandDigit := ParseInteger(s, minus, q);
    r := ParseNumberRest(s, f, startOffset, minus, q, pos, whole, use64bit, useDouble, significandDigit);
  }

  /** The number scanner after the integer part. */
  method ParseNumberRest(s: Text, f: Settings, startOffset: nat, minus: bool, ghost q: nat, intEnd: nat,
                         whole: nat, use64bit: bool, inDouble: bool, significandDigit: nat) returns (r: Scan<Event>)
    requires startOffset <= q < intEnd <= |s| && AllDigits(s[q..intEnd])
    requires whole == DecimalValue(s[q..intEnd]) && significandDigit == IntegerDigits(s, minus, q, intEnd)
    requires inDouble == IntegerEvent(minus, whole).None? && use64bit == (whole > MaxNarrow(minus))
    ensures r == ScanNumberRest(s, f, startOffset, minus, q, intEnd)
  {
    var pos, scale, useDouble := intEnd, 0, inDouble;
    if Peek(s, pos) == '.' {
      pos := pos + 1;
      if !IsDigit(Peek(s, pos)) {
        return Bad(NumberMissFraction, pos);
      }
      pos, scale := ParseFraction(s, pos, whole, useDouble, significandDigit);
      useDouble := true;
    }
    r := ParseAfterFraction(s, f, startOffset, pos, scale, minus, whole, use64bit, useDouble);
  }

  /** The exponent, if any, and the event for the type of number found. */
  method ParseAfterFraction(s: Text, f: Settings, startOffset: nat, start: nat, scale: nat,
                            minus: bool, whole: nat, use64bit: bool, inDouble: bool) returns (r: Scan<Event>)
    requires startOffset <= start <= |s|
    requires !inDouble ==> IntegerEvent(minus, whole).Some? && use64bit == (whole > MaxNarrow(minus))
    ensures r == ScanAfterFraction(s, f, startOffset, start, scale, if inDouble then None else IntegerEvent(minus, whole))
  {
    var pos, useDouble := start, inDouble;
    if Peek(s, pos) == 'e' || Peek(s, pos) == 'E' {
      useDouble := true;
      var exp := ParseExponent(s, startOffset, pos + 1, scale);
      if exp.Bad? {
        return Bad(exp.error, exp.offset);
      }
      pos := exp.end;
    }
    if useDouble {
      if f.overflows(s[startOffset..pos]) {
        return Bad(NumberTooBig, startOffset);
      }
      return Found(pos, Double(s[startOffset..pos]));
    }
    if use64bit {
      return Found(pos, if minus then Int64(0 - whole) else Uint64(whole));
    }
    return Found(pos, if minus then Int(0 - whole) else Uint(whole));
  }
}
