/** A limit text read by both services. */
module LimitExamples {
  import opened Wrappers
  import opened Text
  import opened Spans
  import opened MemoryLimits
  import opened Decimals

  lemma DecimalHundred()
    ensures Decimal(100) == "100"
  {
    assert Decimal(10) == Decimal(1) + "0";
    assert Decimal(100) == Decimal(10) + "0";
  }

  lemma MegaUnit()
    ensures Multiplier("m") == Some(MIB)
  {
    assert Lower("m") == "m";
  }

  lemma OneMiBFits(mb: nat, n: nat)
    requires mb * MIB <= n * MIB < (mb + 1) * MIB
    ensures mb == n
  {
  }

  lemma HundredBytes()
    ensures ToBytes("100m") == Ok(100 * MIB)
  {
    DecimalHundred();
    MegaUnit();
    WrittenTogether(Decimal(100));
    PlainLimits(100, "m", "", "", "");
  }

  lemma WrittenTogether(digits: string)
    requires digits == "100"
    ensures "" + digits + "" + "m" + "" == "100m"
  {
  }

  lemma HundredMiB()
    ensures ToMiB("100m") == Ok(100)
  {
    HundredBytes();
    EnforceableIsCharged("100m");
    ChargedIsEnforceable("100m");
    OneMiBFits(ToMiB("100m").value, 100);
  }

  lemma ThreeHalves()
    ensures IsDigits("1" + "5") && ParseNat("1" + "5") == 15 && Power10(1) == 10
  {
    ParseOfConcat("1", "5");
    assert ParseNat("1") == 1 && ParseNat("5") == 5;
  }

  lemma GigaUnit()
    ensures Multiplier("g") == Some(1024 * MIB)
  {
    assert Lower("g") == "g";
  }

  lemma WrittenWithPoint(whole: string, fraction: string, unit: string)
    requires whole == "1" && fraction == "5" && unit == "g"
    ensures "" + whole + "." + fraction + "" + unit + "" == "1.5g"
  {
  }

  lemma Fifteen(n: nat, k: nat, d: nat)
    requires n == 15 && k == 1024 * MIB && d == 10
    ensures n * k / d == 1610612736
  {
  }

  lemma BytesOfOneAndAHalf(whole: string, fraction: string, unit: string)
    requires IsDigits(whole) && IsDigits(fraction) && All(unit, IsLetter) && Multiplier(unit) == Some(1024 * MIB)
    requires IsDigits(whole + fraction) && ParseNat(whole + fraction) == 15 && Power10(|fraction|) == 10
    ensures ToBytes("" + whole + "." + fraction + "" + unit + "") == Ok(1610612736)
  {
    Fifteen(ParseNat(whole + fraction), Multiplier(unit).value, Power10(|fraction|));
    DecimalLimits("", whole, fraction, "", unit, "");
  }

  lemma MiBOfOneAndAHalf(text: string)
    requires ToBytes(text) == Ok(1610612736)
    ensures ToMiB(text) == Ok(1536)
  {
    MiBAreBytes(text);
  }

  /** A gigabyte and a half is 1536 MiB to the control plane and one and a half times 1024 * 1024 * 1024
      bytes to the lab host. */
  lemma OneAndAHalfGigabytes()
    ensures ToBytes("1.5g") == Ok(1610612736) && ToMiB("1.5g") == Ok(1536)
  {
    ThreeHalves();
    GigaUnit();
    WrittenWithPoint("1", "5", "g");
    BytesOfOneAndAHalf("1", "5", "g");
    MiBOfOneAndAHalf("1.5g");
  }
}
