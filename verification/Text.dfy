/** ASCII text: stripping, splitting and decimal numerals, as Python's str methods do it. */
module Text {

  predicate IsDigit(c: char) { '0' <= c <= '9' }

  /** The ASCII characters that str.strip() and the regex class \s remove. */
  predicate IsSpace(c: char)
  {
    var code := c as int;
    9 <= code <= 13 || 28 <= code <= 32
  }

  predicate IsDigits(s: string)
  {
    s != "" && forall i :: 0 <= i < |s| ==> IsDigit(s[i])
  }

  function StripLeft(s: string): (r: string)
    ensures r != "" ==> !IsSpace(r[0])
    ensures s != "" && !IsSpace(s[0]) ==> r == s
  {
    if s != "" && IsSpace(s[0]) then StripLeft(s[1..]) else s
  }

  function StripRight(s: string): (r: string)
    ensures r <= s
    ensures r != "" ==> !IsSpace(r[|r| - 1])
    ensures s != "" && !IsSpace(s[|s| - 1]) ==> r == s
  {
    if s != "" && IsSpace(s[|s| - 1]) then StripRight(s[..|s| - 1]) else s
  }

  function Strip(s: string): (r: string)
    ensures r != "" ==> !IsSpace(r[0]) && !IsSpace(r[|r| - 1])
    ensures s != "" && !IsSpace(s[0]) && !IsSpace(s[|s| - 1]) ==> r == s
  {
    StripRight(StripLeft(s))
  }

  /** The position of the first occurrence of c, or |s|. */
  function IndexOf(s: string, c: char): (i: nat)
    ensures i <= |s|
    ensures forall k :: 0 <= k < i ==> s[k] != c
    ensures i < |s| ==> s[i] == c
  {
    if s == "" || s[0] == c then 0 else 1 + IndexOf(s[1..], c)
  }

  function LastIndexOf(s: string, c: char): (i: nat)
    requires c in s
    ensures i < |s| && s[i] == c
    ensures forall k :: i < k < |s| ==> s[k] != c
  {
    if s[|s| - 1] == c then |s| - 1 else LastIndexOf(s[..|s| - 1], c)
  }

  function Split(s: string, c: char): (parts: seq<string>)
    ensures |parts| >= 1
    ensures forall k :: 0 <= k < |parts| ==> c !in parts[k]
    ensures parts[0] <= s
    decreases |s|
  {
    var i := IndexOf(s, c);
    if i == |s| then [s] else [s[..i]] + Split(s[i + 1..], c)
  }

  lemma SplitAtFirst(a: string, rest: string, c: char)
    requires c !in a
    ensures Split(a + [c] + rest, c) == [a] + Split(rest, c)
    ensures Split(a, c) == [a]
  {
    var s := a + [c] + rest;
    var i := IndexOf(s, c);
    assert s[|a|] == c;
    assert forall k :: 0 <= k < |a| ==> s[k] == a[k];
    assert i == |a|;
    assert s[..i] == a && s[i + 1..] == rest;
  }

  function DigitValue(c: char): nat
    requires IsDigit(c)
  {
    c as int - '0' as int
  }

  /** int(s) for a numeral, leading zeros allowed. */
  function ParseNat(s: string): nat
    requires IsDigits(s)
  {
    var last := DigitValue(s[|s| - 1]);
    if |s| == 1 then last else 10 * ParseNat(s[..|s| - 1]) + last
  }

  /** str(n). */
  function Decimal(n: nat): (s: string)
    ensures IsDigits(s)
  {
    var last := [(n % 10 + '0' as int) as char];
    if n < 10 then last else Decimal(n / 10) + last
  }

  /** str(n) of any integer. */
  function Numeral(n: int): (s: string)
    ensures n >= 0 ==> s == Decimal(n)
  {
    if n < 0 then "-" + Decimal(-n) else Decimal(n)
  }

  lemma {:induction false} DecimalRoundTrip(n: nat)
    ensures ParseNat(Decimal(n)) == n
    decreases n
  {
    if n >= 10 {
      DecimalRoundTrip(n / 10);
      var s := Decimal(n);
      assert s[..|s| - 1] == Decimal(n / 10);
    }
  }

  lemma DigitsContainNo(s: string, c: char)
    requires IsDigits(s) && !IsDigit(c)
    ensures c !in s
  {
  }

  // ---------------------------------------------------------------- what these functions come to

  function Power10(n: nat): (p: nat)
    ensures p > 0
  {
    if n == 0 then 1 else 10 * Power10(n - 1)
  }

  /** Digits count by their position: writing digits behind a number multiplies it by a power of ten. */
  lemma {:induction false} ParseOfConcat(a: string, b: string)
    requires IsDigits(a) && IsDigits(b)
    ensures IsDigits(a + b) && ParseNat(a + b) == ParseNat(a) * Power10(|b|) + ParseNat(b)
    decreases b
  {
    var front, last := b[..|b| - 1], b[|b| - 1];
    assert (a + b)[..|a + b| - 1] == a + front && (a + b)[|a + b| - 1] == last;
    if front == "" {
      assert a + front == a && Power10(1) == 10;
    } else {
      ParseOfConcat(a, front);
      assert Power10(|b|) == 10 * Power10(|front|);
      TenTimes(ParseNat(a), Power10(|front|));
    }
  }

  lemma TenTimes(a: nat, b: nat)
    ensures 10 * (a * b) == a * (10 * b)
  {
  }

  lemma DigitsAreWorth(c: char)
    requires '0' <= c <= '9'
    ensures IsDigits([c]) && '0' + (ParseNat([c]) as char) == c && ParseNat([c]) <= 9
  {
  }

  /** Numerals are written without leading zeros. */
  lemma {:induction false} NoLeadingZero(n: nat)
    ensures Decimal(n)[0] == '0' <==> n == 0
    ensures n == 0 ==> Decimal(n) == "0"
    decreases n
  {
    if n >= 10 { NoLeadingZero(n / 10); }
  }

  /** The characters that count as spaces: tab, newline, vertical tab, form feed, carriage return, the
      four separators, and the blank. */
  lemma SpacesAre(c: char)
    ensures IsSpace(c) <==> c as int in {9, 10, 11, 12, 13, 28, 29, 30, 31, 32}
  {
  }

  predicate AllSpaces(s: string) { forall i :: 0 <= i < |s| ==> IsSpace(s[i]) }

  /** A text that spaces can be stripped from no further. */
  predicate IsStripped(s: string) { s != "" ==> !IsSpace(s[0]) && !IsSpace(s[|s| - 1]) }

  lemma {:induction false} StripLeftCuts(s: string) returns (left: string)
    ensures s == left + StripLeft(s) && AllSpaces(left)
    decreases s
  {
    left := "";
    if s != "" && IsSpace(s[0]) {
      left := StripLeftCuts(s[1..]);
      assert s == [s[0]] + s[1..];
      left := [s[0]] + left;
    }
  }

  lemma {:induction false} StripRightCuts(s: string) returns (right: string)
    ensures s == StripRight(s) + right && AllSpaces(right)
    decreases s
  {
    right := "";
    if s != "" && IsSpace(s[|s| - 1]) {
      right := StripRightCuts(s[..|s| - 1]);
      assert s == s[..|s| - 1] + [s[|s| - 1]];
      right := right + [s[|s| - 1]];
    }
  }

  /** Stripping takes off spaces at both ends and nothing else. */
  lemma StripCuts(s: string) returns (left: string, right: string)
    ensures s == left + Strip(s) + right && AllSpaces(left) && AllSpaces(right) && IsStripped(Strip(s))
  {
    left := StripLeftCuts(s);
    right := StripRightCuts(StripLeft(s));
    assert left + (Strip(s) + right) == left + Strip(s) + right;
  }

  lemma {:induction false} StripLeftDrops(left: string, rest: string)
    requires AllSpaces(left) && rest != "" && !IsSpace(rest[0])
    ensures StripLeft(left + rest) == rest
    decreases left
  {
    if left == "" {
      assert left + rest == rest;
    } else {
      assert (left + rest)[1..] == left[1..] + rest && (left + rest)[0] == left[0];
      StripLeftDrops(left[1..], rest);
    }
  }

  lemma {:induction false} StripRightDrops(rest: string, right: string)
    requires AllSpaces(right) && rest != "" && !IsSpace(rest[|rest| - 1])
    ensures StripRight(rest + right) == rest
    decreases right
  {
    if right == "" {
      assert rest + right == rest;
    } else {
      var s := rest + right;
      assert s[..|s| - 1] == rest + right[..|right| - 1] && s[|s| - 1] == right[|right| - 1];
      StripRightDrops(rest, right[..|right| - 1]);
    }
  }

  /** Whatever the spaces around it, a text comes out of stripping. */
  lemma StripIsTheCore(left: string, core: string, right: string)
    requires AllSpaces(left) && AllSpaces(right) && core != "" && IsStripped(core)
    ensures Strip(left + core + right) == core
  {
    assert left + core + right == left + (core + right) && (core + right)[0] == core[0];
    StripLeftDrops(left, core + right);
    StripRightDrops(core, right);
  }

  lemma SplitOnce(s: string, c: char) returns (rest: string)
    ensures |Split(s, c)| == 1 ==> Split(s, c) == [s]
    ensures |Split(s, c)| > 1 ==> s == Split(s, c)[0] + [c] + rest && Split(s, c)[1..] == Split(rest, c)
  {
    var i := IndexOf(s, c);
    rest := if i < |s| then s[i + 1..] else "";
    if i < |s| { assert s == s[..i] + [c] + rest; }
  }

  /** The parts of a text that is split in two or three, put together again. */
  lemma SplitJoins(s: string, c: char)
    ensures |Split(s, c)| == 1 ==> Split(s, c) == [s]
    ensures |Split(s, c)| == 2 ==> s == Split(s, c)[0] + [c] + Split(s, c)[1]
    ensures |Split(s, c)| == 3 ==> s == Split(s, c)[0] + [c] + Split(s, c)[1] + [c] + Split(s, c)[2]
  {
    var parts := Split(s, c);
    var rest := SplitOnce(s, c);
    if |parts| > 1 {
      var last := SplitOnce(rest, c);
      assert parts[1..][0] == parts[1];
      if |parts| == 3 {
        var _ := SplitOnce(last, c);
        assert parts[1..][1] == parts[2] && parts[1..][1..] == [parts[2]];
        JoinThree(s, parts[0], parts[1], parts[2], rest, last, c);
      }
    }
  }

  lemma JoinThree(s: string, a: string, b: string, d: string, rest: string, last: string, c: char)
    requires s == a + [c] + rest && rest == b + [c] + last && last == d
    ensures s == a + [c] + b + [c] + d
  {
  }
}
