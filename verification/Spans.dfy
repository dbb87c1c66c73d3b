/** Cutting a text where a kind of characters ends. */
module Spans {
  predicate All(s: string, p: char -> bool) { forall i :: 0 <= i < |s| ==> p(s[i]) }

  /** The length of the longest prefix of characters with property p. */
  function Span(s: string, p: char -> bool): (n: nat)
    ensures n <= |s| && All(s[..n], p)
    ensures n < |s| ==> !p(s[n])
  {
    if s == "" || !p(s[0]) then 0 else 1 + Span(s[1..], p)
  }

  lemma AllOfIt(s: string, p: char -> bool)
    requires Span(s, p) == |s|
    ensures All(s, p)
  {
    assert s[..|s|] == s;
  }

  lemma SpanOfAll(s: string, p: char -> bool)
    requires All(s, p)
    ensures Span(s, p) == |s|
  {
  }

  lemma CutAt(s: string, n: nat)
    requires n <= |s|
    ensures s == s[..n] + s[n..]
  {
  }

  lemma SpanIsUnique(s: string, t: string, p: char -> bool)
    requires All(s, p) && (t != "" ==> !p(t[0]))
    ensures Span(s + t, p) == |s| && (s + t)[|s|..] == t && (s + t)[..|s|] == s
  {
    assert forall k :: 0 <= k < |s| ==> (s + t)[k] == s[k];
    assert t != "" ==> (s + t)[|s|] == t[0];
    var n := Span(s + t, p);
    assert forall k :: 0 <= k < n ==> (s + t)[..n][k] == (s + t)[k];
  }
}
