/** Memory limit texts such as "512m" or "1.5 GiB": the format both services accept, the whole MiB the
    control plane charges for a text and the bytes the lab host makes of it. Amounts are exact. */
module MemoryLimits {
  import opened Wrappers
  import opened Text
  import opened Spans

  const MIB: nat := 1048576

  predicate IsLetter(c: char) { 'a' <= c <= 'z' || 'A' <= c <= 'Z' }

  /** The parts of a limit text: whole number, fraction digits (none when absent) and unit. */
  datatype Limit = Limit(whole: string, fraction: string, unit: string)

  // ---------------------------------------------------------------- the format

  /** The pattern, as a grammar: spaces, a number, spaces, a possibly empty unit, spaces. */
  ghost predicate Spells(s: string, l: Limit, a: string, b: string, c: string)
  {
    && s == a + l.whole + Dotted(l.fraction) + b + l.unit + c
    && All(a, IsSpace) && All(b, IsSpace) && All(c, IsSpace)
    && IsDigits(l.whole) && (l.fraction != "" ==> IsDigits(l.fraction)) && All(l.unit, IsLetter)
  }

  function Dotted(fraction: string): string
  {
    if fraction == "" then "" else "." + fraction
  }

  /** The matcher: every part takes as many characters as it can. */
  function Match(s: string): Option<Limit>
  {
    var t := s[Span(s, IsSpace)..];
    var n := Span(t, IsDigit);
    if n == 0 then None else
    var (fraction, v) := MatchFraction(t[n..]);
    match MatchTail(v)
    case None => None
    case Some(unit) => Some(Limit(t[..n], fraction, unit))
  }

  function MatchFraction(u: string): (string, string)
  {
    if u == "" || u[0] != '.' then ("", u) else
    var k := Span(u[1..], IsDigit);
    if k == 0 then ("", u) else (u[1..k + 1], u[k + 1..])
  }

  /** The rest of a text after its number: spaces, unit, spaces. */
  predicate IsTail(v: string, b: string, unit: string, c: string)
  {
    v == b + unit + c && All(b, IsSpace) && All(c, IsSpace) && All(unit, IsLetter)
  }

  function MatchTail(v: string): Option<string>
  {
    var w := v[Span(v, IsSpace)..];
    var m := Span(w, IsLetter);
    if Span(w[m..], IsSpace) == |w[m..]| then Some(w[..m]) else None
  }

  lemma TailIsSound(v: string) returns (b: string, c: string)
    requires MatchTail(v).Some?
    ensures IsTail(v, b, MatchTail(v).value, c)
  {
    var j := Span(v, IsSpace);
    var w := v[j..];
    var m := Span(w, IsLetter);
    b, c := v[..j], w[m..];
    CutAt(v, j);
    CutAt(w, m);
    Join(v, b, w, w[..m], c);
    AllOfIt(c, IsSpace);
  }

  lemma Join(v: string, b: string, w: string, unit: string, c: string)
    requires v == b + w && w == unit + c
    ensures v == b + unit + c
  {
  }

  lemma TailIsComplete(v: string, b: string, unit: string, c: string)
    requires IsTail(v, b, unit, c)
    ensures MatchTail(v) == Some(unit)
  {
    SpanOfAll(c, IsSpace);
    if unit == "" {
      assert v == b + c && All(v, IsSpace);
      SpanOfAll(v, IsSpace);
      assert v[|v|..] == "";
    } else {
      assert v == b + (unit + c);
      SpanIsUnique(b, unit + c, IsSpace);
      SpanIsUnique(unit, c, IsLetter);
    }
  }

  lemma FractionIsSound(u: string)
    ensures u == Dotted(MatchFraction(u).0) + MatchFraction(u).1
    ensures MatchFraction(u).0 != "" ==> IsDigits(MatchFraction(u).0)
  {
    if u != "" && u[0] == '.' {
      var k := Span(u[1..], IsDigit);
      DottedCut(u, k);
      if k > 0 { assert MatchFraction(u) == (u[1..k + 1], u[k + 1..]); }
    }
  }

  lemma DottedCut(u: string, k: nat)
    requires u != "" && u[0] == '.' && k < |u|
    ensures u == "." + u[1..k + 1] + u[k + 1..] && u[1..k + 1] == u[1..][..k]
  {
  }

  /** What the matcher finds is spelled by the text. */
  lemma MatchIsSound(s: string) returns (a: string, b: string, c: string)
    requires Match(s).Some?
    ensures Spells(s, Match(s).value, a, b, c)
  {
    var i := Span(s, IsSpace);
    var t := s[i..];
    var n := Span(t, IsDigit);
    var whole, u := t[..n], t[n..];
    var (fraction, v) := MatchFraction(u);
    var unit := MatchTail(v).value;
    a := s[..i];
    b, c := TailIsSound(v);
    FractionIsSound(u);
    assert Match(s).value == Limit(whole, fraction, unit);
    assert s == a + whole + Dotted(fraction) + b + unit + c by {
      CutAt(s, i);
      CutAt(t, n);
      Assemble(s, a, t, whole, u, fraction, v, b, unit, c);
    }
  }

  lemma Assemble(s: string, a: string, t: string, whole: string, u: string, fraction: string, v: string,
                 b: string, unit: string, c: string)
    requires s == a + t && t == whole + u && u == Dotted(fraction) + v && v == b + unit + c
    ensures s == a + whole + Dotted(fraction) + b + unit + c
  {
  }

  /** Whatever is spelled is found: the parts of a text are unique. */
  lemma MatchIsComplete(s: string, l: Limit, a: string, b: string, c: string)
    requires Spells(s, l, a, b, c)
    ensures Match(s) == Some(l)
  {
    var v := b + l.unit + c;
    var u := Dotted(l.fraction) + v;
    var t := l.whole + u;
    Assemble(a + t, a, t, l.whole, u, l.fraction, v, b, l.unit, c);
    assert v != "" ==> IsSpace(v[0]) || IsLetter(v[0]);
    SpanIsUnique(a, t, IsSpace);
    SpanIsUnique(l.whole, u, IsDigit);
    FractionIsUnique(l.fraction, v);
    TailIsComplete(v, b, l.unit, c);
  }

  lemma FractionIsUnique(fraction: string, v: string)
    requires fraction != "" ==> IsDigits(fraction)
    requires v != "" ==> IsSpace(v[0]) || IsLetter(v[0])
    ensures MatchFraction(Dotted(fraction) + v) == (fraction, v)
  {
    if fraction == "" {
      assert Dotted(fraction) + v == v;
    } else {
      var u := Dotted(fraction) + v;
      assert u[1..] == fraction + v;
      SpanIsUnique(fraction, v, IsDigit);
      assert u[1..|fraction| + 1] == fraction && u[|fraction| + 1..] == v;
    }
  }

  // ---------------------------------------------------------------- amounts

  /** The number in front of the unit. */
  function Number(l: Limit): real
    requires IsDigits(l.whole) && (l.fraction != "" ==> IsDigits(l.fraction))
  {
    ParseNat(l.whole) as real +
    (if l.fraction == "" then 0.0 else ParseNat(l.fraction) as real / Power10(|l.fraction|) as real)
  }

  function Lower(s: string): string
  {
    if s == "" then "" else [if 'A' <= s[0] <= 'Z' then ((s[0] as int) + 32) as char else s[0]] + Lower(s[1..])
  }

  function Multiplier(unit: string): Option<nat>
  {
    var u := Lower(unit);
    if u in ["", "b"] then Some(1)
    else if u in ["k", "kb", "ki", "kib"] then Some(1024)
    else if u in ["m", "mb", "mi", "mib"] then Some(MIB)
    else if u in ["g", "gb", "gi", "gib"] then Some(1024 * MIB)
    else if u in ["t", "tb", "ti", "tib"] then Some(MIB * MIB)
    else None
  }

  /** The units of the e-th power: bytes, or one of the letters k, m, g, t with an optional ending. */
  predicate IsUnitOf(u: string, e: nat)
  {
    if e == 0 then u == "" || u == "b"
    else
      && e <= 4 && u != "" && u[0] == "kmgt"[e - 1]
      && (u[1..] == "" || u[1..] == "b" || u[1..] == "i" || u[1..] == "ib")
  }

  function Pow1024(e: nat): nat
  {
    if e == 0 then 1 else 1024 * Pow1024(e - 1)
  }

  lemma PowersOf1024()
    ensures Pow1024(0) == 1 && Pow1024(1) == 1024 && Pow1024(2) == MIB && Pow1024(3) == 1024 * MIB
    ensures Pow1024(4) == MIB * MIB
  {
  }

  /** The table of multipliers has exactly the units of the first five powers of 1024, in any case. */
  lemma UnitsArePowersOf1024(unit: string, e: nat)
    requires e <= 4
    ensures Multiplier(unit) == Some(Pow1024(e)) <==> IsUnitOf(Lower(unit), e)
  {
    PowersOf1024();
    var u := Lower(unit);
    Endings(u, 'k', "k", "kb", "ki", "kib");
    Endings(u, 'm', "m", "mb", "mi", "mib");
    Endings(u, 'g', "g", "gb", "gi", "gib");
    Endings(u, 't', "t", "tb", "ti", "tib");
  }

  lemma Endings(u: string, c: char, a: string, b: string, i: string, ib: string)
    requires a == [c] && b == [c, 'b'] && i == [c, 'i'] && ib == [c, 'i', 'b']
    ensures u in [a, b, i, ib] <==>
      u != "" && u[0] == c && (u[1..] == "" || u[1..] == "b" || u[1..] == "i" || u[1..] == "ib")
  {
    assert a[1..] == "" && b[1..] == "b" && i[1..] == "i" && ib[1..] == "ib";
    if u != "" {
      assert u == [u[0]] + u[1..];
      assert a == [c] + "" && b == [c] + "b" && i == [c] + "i" && ib == [c] + "ib";
    }
  }

  datatype LimitError = BadFormat | NotPositive | UnknownUnit | BelowOneMiB

  /** The parts of a matched text with its number. */
  function Read(text: string): (r: Option<(real, string)>)
  {
    match Match(text)
    case None => None
    case Some(l) =>
      MatchGivesDigits(text);
      Some((Number(l), l.unit))
  }

  lemma MatchGivesDigits(text: string)
    requires Match(text).Some?
    ensures IsDigits(Match(text).value.whole)
    ensures Match(text).value.fraction != "" ==> IsDigits(Match(text).value.fraction)
  {
    var a, b, c := MatchIsSound(text);
  }

  function MiBOf(number: real, unit: string): Result<nat, LimitError>
  {
    if number <= 0.0 then Err(NotPositive) else
    match Multiplier(unit)
    case None => Err(UnknownUnit)
    case Some(multiplier) =>
      var mb := (number * multiplier as real).Floor / MIB;
      if mb <= 0 then Err(BelowOneMiB) else Ok(mb)
  }

  function BytesOf(number: real, unit: string): Result<nat, LimitError>
  {
    match Multiplier(unit)
    case None => Err(UnknownUnit)
    case Some(multiplier) =>
      var bytes := (number * multiplier as real).Floor;
      if bytes <= 0 then Err(NotPositive) else Ok(bytes)
  }

  /** The control plane's reading: whole MiB, rounded down. */
  function ToMiB(text: string): Result<nat, LimitError>
  {
    match Read(text) case None => Err(BadFormat) case Some((number, unit)) => MiBOf(number, unit)
  }

  /** No limit is no charge. */
  function ToOptionalMiB(text: Option<string>): Result<Option<nat>, LimitError>
  {
    match text
    case None => Ok(None)
    case Some(t) => (match ToMiB(t) case Err(e) => Err(e) case Ok(mb) => Ok(Some(mb)))
  }

  /** The lab host's reading: bytes, rounded down. */
  function ToBytes(text: string): Result<nat, LimitError>
  {
    match Read(text) case None => Err(BadFormat) case Some((number, unit)) => BytesOf(number, unit)
  }

  lemma DivideByMiB(bytes: int)
    ensures bytes / MIB * MIB <= bytes < (bytes / MIB + 1) * MIB
    ensures bytes / MIB >= 1 <==> bytes >= MIB
  {
  }

  lemma ReadingsAgree(number: real, unit: string)
    ensures MiBOf(number, unit).Ok? ==> BytesOf(number, unit).Ok?
    ensures MiBOf(number, unit).Ok? ==>
      MiBOf(number, unit).value * MIB <= BytesOf(number, unit).value < (MiBOf(number, unit).value + 1) * MIB
    ensures BytesOf(number, unit).Ok? ==> (MiBOf(number, unit).Ok? <==> BytesOf(number, unit).value >= MIB)
    ensures BytesOf(number, unit).Ok? && MiBOf(number, unit).Err? ==> MiBOf(number, unit) == Err(BelowOneMiB)
  {
    match Multiplier(unit)
    case None =>
    case Some(multiplier) =>
      FloorOfNonPositive(number, multiplier);
      DivideByMiB((number * multiplier as real).Floor);
  }

  /** Whatever the control plane charges for, the lab host accepts, and the bytes lie within the MiB
      charged, rounded up by less than one. */
  lemma ChargedIsEnforceable(text: string)
    requires ToMiB(text).Ok?
    ensures ToBytes(text).Ok?
    ensures ToMiB(text).value * MIB <= ToBytes(text).value < (ToMiB(text).value + 1) * MIB
  {
    var (number, unit) := Read(text).value;
    ReadingsAgree(number, unit);
  }

  /** The other way round, the control plane refuses exactly what is below one MiB. */
  lemma EnforceableIsCharged(text: string)
    requires ToBytes(text).Ok?
    ensures ToMiB(text).Ok? <==> ToBytes(text).value >= MIB
    ensures ToMiB(text).Err? ==> ToMiB(text) == Err(BelowOneMiB)
  {
    var (number, unit) := Read(text).value;
    ReadingsAgree(number, unit);
  }

  lemma FloorOfNonPositive(number: real, multiplier: nat)
    ensures number <= 0.0 ==> (number * multiplier as real).Floor <= 0
  {
    if number <= 0.0 {
      assert number * multiplier as real <= 0.0;
    }
  }

  /** A plain number with a unit means what it says, with any spaces around its parts. */
  lemma PlainLimits(n: nat, unit: string, a: string, b: string, c: string)
    requires Multiplier(unit).Some? && All(unit, IsLetter) && n > 0
    requires All(a, IsSpace) && All(b, IsSpace) && All(c, IsSpace)
    ensures ToBytes(a + Decimal(n) + b + unit + c) == Ok(n * Multiplier(unit).value)
  {
    PlainNumber(n, unit, a, b, c);
    PlainBytes(n, unit);
  }

  lemma PlainBytes(n: nat, unit: string)
    requires Multiplier(unit).Some? && n > 0
    ensures BytesOf(n as real, unit) == Ok(n * Multiplier(unit).value)
  {
    WholeProduct(n, Multiplier(unit).value);
    MultiplierIsPositive(unit);
  }

  lemma PlainNumber(n: nat, unit: string, a: string, b: string, c: string)
    requires All(unit, IsLetter)
    requires All(a, IsSpace) && All(b, IsSpace) && All(c, IsSpace)
    ensures Read(a + Decimal(n) + b + unit + c) == Some((n as real, unit))
  {
    var text := a + Decimal(n) + b + unit + c;
    assert Decimal(n) + "" == Decimal(n) && a + Decimal(n) + "" == a + Decimal(n);
    MatchIsComplete(text, Limit(Decimal(n), "", unit), a, b, c);
    DecimalRoundTrip(n);
  }

  lemma WholeProduct(n: nat, k: nat)
    ensures (n as real * k as real).Floor == n * k
    ensures n > 0 && k > 0 ==> n * k > 0
  {
    assert n as real * k as real == (n * k) as real;
  }

  lemma MultiplierIsPositive(unit: string)
    requires Multiplier(unit).Some?
    ensures Multiplier(unit).value >= 1
  {
  }
}
