/** What a memory limit with a fraction is worth to both services. */
module Decimals {
  import opened Wrappers
  import opened Text
  import opened Spans
  import opened MemoryLimits

  // ---------------------------------------------------------------- one number out of two

  lemma SumOfQuotients(w: nat, f: nat, d: nat)
    requires d > 0
    ensures w as real + f as real / d as real == (w * d + f) as real / d as real
  {
    var q := f as real / d as real;
    assert q * d as real == f as real;
    assert (w as real + q) * d as real == (w * d + f) as real;
  }

  lemma LessThanOneApart(x: real, n: real, d: real, q: real, m: real)
    requires d > 0.0 && x * d == n && m == q * d && m <= n < m + d
    ensures 0.0 <= x - q < 1.0
  {
    var y := x - q;
    Distribute(x, q, d);
    var e := y * d;
    assert e == n - m;
    assert e < d;
    if y < 0.0 {
      NegativeProduct(y, d);
    } else if y >= 1.0 {
      LargeProduct(y, d);
    }
  }

  lemma NegativeProduct(y: real, d: real)
    requires d > 0.0 && y < 0.0
    ensures y * d < 0.0
  {
  }

  lemma LargeProduct(y: real, d: real)
    requires d > 0.0 && y >= 1.0
    ensures y * d >= d
  {
    assert (y - 1.0) * d >= 0.0;
  }

  lemma Distribute(x: real, q: real, d: real)
    ensures (x - q) * d == x * d - q * d
  {
  }

  lemma FloorIs(x: real, q: nat)
    requires 0.0 <= x - q as real < 1.0
    ensures x.Floor == q
  {
  }

  lemma ProductInReals(q: nat, d: nat)
    ensures (q * d) as real == q as real * d as real
  {
  }

  lemma QuotientTimes(n: nat, d: nat)
    requires d > 0
    ensures n as real / d as real * d as real == n as real
    ensures n / d * d <= n < n / d * d + d
  {
  }

  lemma FloorOfQuotient(n: nat, d: nat)
    requires d > 0
    ensures (n as real / d as real).Floor == n / d
  {
    QuotientTimes(n, d);
    ProductInReals(n / d, d);
    LessThanOneApart(n as real / d as real, n as real, d as real, (n / d) as real, (n / d * d) as real);
    FloorIs(n as real / d as real, n / d);
  }

  lemma TimesQuotient(n: nat, d: nat, k: nat)
    requires d > 0
    ensures (n as real / d as real) * k as real == (n * k) as real / d as real
  {
    var x := n as real / d as real;
    assert x * d as real == n as real;
    assert (x * k as real) * d as real == (n * k) as real;
  }

  /** The digits before and behind the point, written together, over a power of ten. */
  lemma NumberOfDigits(whole: string, fraction: string, unit: string)
    requires IsDigits(whole) && IsDigits(fraction)
    ensures IsDigits(whole + fraction)
    ensures Number(Limit(whole, fraction, unit)) == ParseNat(whole + fraction) as real / Power10(|fraction|) as real
  {
    ParseOfConcat(whole, fraction);
    SumOfQuotients(ParseNat(whole), ParseNat(fraction), Power10(|fraction|));
  }

  // ---------------------------------------------------------------- decimal limits

  lemma ReadInBytes(text: string, number: real, unit: string)
    requires Read(text) == Some((number, unit))
    ensures ToBytes(text) == BytesOf(number, unit)
  {
  }

  lemma BytesOfDecimal(n: nat, d: nat, unit: string)
    requires d > 0 && Multiplier(unit).Some?
    ensures var bytes := n * Multiplier(unit).value / d;
      BytesOf(n as real / d as real, unit) == if bytes == 0 then Err(NotPositive) else Ok(bytes)
  {
    TimesQuotient(n, d, Multiplier(unit).value);
    FloorOfQuotient(n * Multiplier(unit).value, d);
  }

  /** The bytes of a number with digits behind the point: rounded down, whatever the spaces. */
  lemma DecimalLimits(a: string, whole: string, fraction: string, b: string, unit: string, c: string)
    requires IsDigits(whole) && IsDigits(fraction) && All(unit, IsLetter) && Multiplier(unit).Some?
    requires All(a, IsSpace) && All(b, IsSpace) && All(c, IsSpace)
    ensures IsDigits(whole + fraction)
    ensures var bytes := ParseNat(whole + fraction) * Multiplier(unit).value / Power10(|fraction|);
      ToBytes(a + whole + "." + fraction + b + unit + c) == if bytes == 0 then Err(NotPositive) else Ok(bytes)
  {
    var number := Number(Limit(whole, fraction, unit));
    NumberOfDigits(whole, fraction, unit);
    DecimalIsRead(a, whole, fraction, b, unit, c);
    ReadInBytes(a + whole + "." + fraction + b + unit + c, number, unit);
    BytesOfDecimal(ParseNat(whole + fraction), Power10(|fraction|), unit);
  }

  lemma DecimalIsRead(a: string, whole: string, fraction: string, b: string, unit: string, c: string)
    requires IsDigits(whole) && IsDigits(fraction) && All(unit, IsLetter)
    requires All(a, IsSpace) && All(b, IsSpace) && All(c, IsSpace)
    ensures Read(a + whole + "." + fraction + b + unit + c) == Some((Number(Limit(whole, fraction, unit)), unit))
  {
    var text := a + whole + "." + fraction + b + unit + c;
    assert a + whole + Dotted(fraction) == a + whole + "." + fraction;
    MatchIsComplete(text, Limit(whole, fraction, unit), a, b, c);
  }

  lemma WholeIsRead(a: string, whole: string, b: string, unit: string, c: string)
    requires IsDigits(whole) && All(unit, IsLetter)
    requires All(a, IsSpace) && All(b, IsSpace) && All(c, IsSpace)
    ensures Read(a + whole + b + unit + c) == Some((ParseNat(whole) as real, unit))
  {
    assert a + whole + Dotted("") == a + whole;
    MatchIsComplete(a + whole + b + unit + c, Limit(whole, "", unit), a, b, c);
  }

  lemma BytesOfWhole(n: nat, unit: string)
    requires Multiplier(unit).Some?
    ensures var bytes := n * Multiplier(unit).value;
      BytesOf(n as real, unit) == if bytes == 0 then Err(NotPositive) else Ok(bytes)
  {
    WholeProduct(n, Multiplier(unit).value);
  }

  /** Without a point: the number times the unit, leading zeros or not. */
  lemma WholeLimits(a: string, whole: string, b: string, unit: string, c: string)
    requires IsDigits(whole) && All(unit, IsLetter) && Multiplier(unit).Some?
    requires All(a, IsSpace) && All(b, IsSpace) && All(c, IsSpace)
    ensures var bytes := ParseNat(whole) * Multiplier(unit).value;
      ToBytes(a + whole + b + unit + c) == if bytes == 0 then Err(NotPositive) else Ok(bytes)
  {
    WholeIsRead(a, whole, b, unit, c);
    ReadInBytes(a + whole + b + unit + c, ParseNat(whole) as real, unit);
    BytesOfWhole(ParseNat(whole), unit);
  }

  /** The MiB charged are the bytes enforced, divided by 1048576 and rounded down; below one there is no
      charge. */
  lemma MiBAreBytes(text: string)
    ensures match ToBytes(text)
      case Ok(bytes) => ToMiB(text) == if bytes < 1048576 then Err(BelowOneMiB) else Ok(bytes / 1048576)
      case Err(_) => ToMiB(text).Err?
  {
    if Read(text).Some? {
      var (number, unit) := Read(text).value;
      ReadingsAgree(number, unit);
      if ToBytes(text).Ok? && ToMiB(text).Ok? { OneQuotient(ToBytes(text).value, ToMiB(text).value); }
    }
  }

  lemma OneQuotient(bytes: nat, mb: nat)
    requires mb * MIB <= bytes < (mb + 1) * MIB
    ensures mb == bytes / 1048576
  {
  }

  /** A text is not read as a limit exactly when it is not spelled as one. */
  lemma UnreadTexts(text: string)
    ensures Match(text).None? <==> forall l: Limit, a, b, c :: !Spells(text, l, a, b, c)
  {
    if Match(text).Some? {
      var a, b, c := MatchIsSound(text);
    }
    forall l: Limit, a, b, c | Spells(text, l, a, b, c) ensures Match(text) == Some(l) {
      MatchIsComplete(text, l, a, b, c);
    }
  }

  /** Both services refuse such a text for that reason. Of the others the lab host refuses for its unit
      exactly those with an unknown unit, and the control plane those of them that are not zero, as it
      looks at the number first. */
  lemma RefusedTexts(text: string)
    ensures ToBytes(text) == Err(BadFormat) <==> Match(text).None?
    ensures ToMiB(text) == Err(BadFormat) <==> Match(text).None?
    ensures Match(text).Some? ==>
      var l := Match(text).value;
      && IsDigits(l.whole) && (l.fraction != "" ==> IsDigits(l.fraction))
      && var zero := ParseNat(l.whole) == 0 && (l.fraction != "" ==> ParseNat(l.fraction) == 0);
         && (ToBytes(text) == Err(UnknownUnit) <==> Multiplier(l.unit).None?)
         && (ToMiB(text) == Err(NotPositive) <==> zero)
         && (ToMiB(text) == Err(UnknownUnit) <==> !zero && Multiplier(l.unit).None?)
  {
    if Match(text).Some? {
      var l := Match(text).value;
      MatchGivesDigits(text);
      NothingIsZero(l);
      ReasonsDiffer(Number(l), l.unit);
    }
  }

  lemma NothingIsZero(l: Limit)
    requires IsDigits(l.whole) && (l.fraction != "" ==> IsDigits(l.fraction))
    ensures 0.0 <= Number(l)
    ensures Number(l) == 0.0 <==> ParseNat(l.whole) == 0 && (l.fraction != "" ==> ParseNat(l.fraction) == 0)
  {
    if l.fraction != "" {
      var q := ParseNat(l.fraction) as real / Power10(|l.fraction|) as real;
      assert q * Power10(|l.fraction|) as real == ParseNat(l.fraction) as real;
    }
  }

  lemma ReasonsDiffer(number: real, unit: string)
    ensures BytesOf(number, unit) != Err(BadFormat) && MiBOf(number, unit) != Err(BadFormat)
    ensures BytesOf(number, unit) == Err(UnknownUnit) <==> Multiplier(unit).None?
    ensures MiBOf(number, unit) == Err(NotPositive) <==> number <= 0.0
    ensures MiBOf(number, unit) == Err(UnknownUnit) <==> number > 0.0 && Multiplier(unit).None?
  {
  }

  // ---------------------------------------------------------------- units in any case

  /** Two texts are the same but for the case of letters, and the second one has no upper-case letters. */
  predicate IsLowerOf(upper: string, lower: string)
  {
    && |upper| == |lower|
    && forall i :: 0 <= i < |upper| ==>
         if 'A' <= upper[i] <= 'Z' then lower[i] as int == upper[i] as int + 32 else lower[i] == upper[i]
  }

  lemma {:induction false} LowerIgnoresCase(s: string, t: string)
    ensures Lower(s) == t <==> IsLowerOf(s, t)
    decreases s
  {
    if s != "" && t != "" {
      LowerIgnoresCase(s[1..], t[1..]);
      assert Lower(s)[1..] == Lower(s[1..]);
      assert t == [t[0]] + t[1..];
      if IsLowerOf(s, t) {
        assert forall i :: 0 <= i < |s[1..]| ==> s[1..][i] == s[i + 1] && t[1..][i] == t[i + 1];
      }
      if IsLowerOf(s[1..], t[1..]) {
        forall i | 0 < i < |s| ensures s[1..][i - 1] == s[i] { }
      }
    }
  }

  /** The units that are known: b, k, m, g and t in either case, with the endings that each may have, as
      the powers of 1024. */
  lemma KnownUnits(unit: string, lower: string)
    requires IsLowerOf(unit, lower)
    ensures Multiplier(unit) == Some(1) <==> lower in ["", "b"]
    ensures Multiplier(unit) == Some(1024) <==> lower in ["k", "kb", "ki", "kib"]
    ensures Multiplier(unit) == Some(1048576) <==> lower in ["m", "mb", "mi", "mib"]
    ensures Multiplier(unit) == Some(1073741824) <==> lower in ["g", "gb", "gi", "gib"]
    ensures Multiplier(unit) == Some(1099511627776) <==> lower in ["t", "tb", "ti", "tib"]
    ensures Multiplier(unit).Some? ==> Multiplier(unit).value in [1, 1024, 1048576, 1073741824, 1099511627776]
    ensures Multiplier(unit).Some? ==> All(unit, IsLetter)
  {
    LowerIgnoresCase(unit, lower);
    if Multiplier(unit).Some? { LettersOnly(lower); LettersOfBoth(unit, lower); }
  }

  lemma LettersOnly(lower: string)
    requires lower in ["", "b", "k", "kb", "ki", "kib", "m", "mb", "mi", "mib", "g", "gb", "gi", "gib",
                       "t", "tb", "ti", "tib"]
    ensures forall i :: 0 <= i < |lower| ==> 'a' <= lower[i] <= 'z'
  {
  }

  lemma LettersOfBoth(unit: string, lower: string)
    requires IsLowerOf(unit, lower) && forall i :: 0 <= i < |lower| ==> 'a' <= lower[i] <= 'z'
    ensures All(unit, IsLetter)
  {
  }
}
