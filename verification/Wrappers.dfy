/** Result types and list filtering, shared by every module. */
module Wrappers {
  datatype Option<+T> = None | Some(value: T)

  datatype Result<+T, +E> = Ok(value: T) | Err(error: E)

  /** The elements of a list that satisfy a condition, in order. */
  function Keep<T(!new)>(s: seq<T>, p: T -> bool): (r: seq<T>)
    ensures forall x :: x in r <==> x in s && p(x)
  {
    if s == [] then [] else (if p(s[0]) then [s[0]] else []) + Keep(s[1..], p)
  }

  lemma {:induction false} KeepAll<T(!new)>(s: seq<T>, p: T -> bool)
    requires forall x :: x in s ==> p(x)
    ensures Keep(s, p) == s
    decreases s
  {
    if s != [] {
      assert s == [s[0]] + s[1..];
      KeepAll(s[1..], p);
    }
  }

  lemma {:induction false} KeepNone<T(!new)>(s: seq<T>, p: T -> bool)
    requires forall x :: x in s ==> !p(x)
    ensures Keep(s, p) == []
    decreases s
  {
    if s != [] { KeepNone(s[1..], p); }
  }

  lemma {:induction false} KeepAppend<T(!new)>(a: seq<T>, b: seq<T>, p: T -> bool)
    ensures Keep(a + b, p) == Keep(a, p) + Keep(b, p)
    decreases a
  {
    if a == [] {
      assert a + b == b;
    } else {
      assert (a + b)[1..] == a[1..] + b;
      KeepAppend(a[1..], b, p);
    }
  }

  /** Two elements that satisfy the condition are both kept, and more than one is kept only of two. */
  lemma {:induction false} KeepsBoth<T(!new)>(s: seq<T>, p: T -> bool, i: nat, j: nat)
    requires i < j < |s| && p(s[i]) && p(s[j])
    ensures |Keep(s, p)| > 1
    decreases s
  {
    if i > 0 {
      KeepsBoth(s[1..], p, i - 1, j - 1);
    } else {
      assert s[1..][j - 1] in Keep(s[1..], p);
    }
  }

  lemma {:induction false} KeptTwo<T(!new)>(s: seq<T>, p: T -> bool) returns (i: nat, j: nat)
    requires |Keep(s, p)| > 1
    ensures i < j < |s| && p(s[i]) && p(s[j])
    decreases s
  {
    var kept := Keep(s[1..], p);
    if p(s[0]) {
      assert kept[0] in kept;
      j :| 0 <= j < |s[1..]| && s[1..][j] == kept[0];
      i, j := 0, j + 1;
    } else {
      i, j := KeptTwo(s[1..], p);
      i, j := i + 1, j + 1;
    }
  }

  /** Some element of a nonempty set, for loops that visit its elements in any order. */
  method Pick<T>(s: set<T>) returns (x: T)
    requires s != {}
    ensures x in s
  {
    x :| x in s;
  }
}
