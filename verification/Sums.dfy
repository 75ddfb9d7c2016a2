/**
  Sums over the elements of a sequence, how they change with one element, and searching a sequence.
 */
module Sums {
  function Sum<T>(s: seq<T>, f: T -> int): int {
    if s == [] then 0 else Sum(s[..|s| - 1], f) + f(s[|s| - 1])
  }

  lemma {:induction false} SumOfChanged<T>(s: seq<T>, i: nat, t: T, f: T -> int)
    requires i < |s|
    ensures Sum(s[i := t], f) == Sum(s, f) - f(s[i]) + f(t)
  {
    var front := s[..|s| - 1];
    if i < |s| - 1 {
      assert s[i := t][..|s| - 1] == front[i := t];
      SumOfChanged(front, i, t, f);
    } else {
      assert s[i := t][..|s| - 1] == front;
    }
  }

  // A sum of non-negative numbers is at least each of them, and zero only if all are.
  lemma {:induction false} SumBounds<T(!new)>(s: seq<T>, f: T -> int)
    requires forall t :: f(t) >= 0
    ensures Sum(s, f) >= 0
    ensures forall i :: 0 <= i < |s| ==> f(s[i]) <= Sum(s, f)
    ensures (forall i :: 0 <= i < |s| ==> f(s[i]) == 0) ==> Sum(s, f) == 0
  {
    if s != [] {
      var front := s[..|s| - 1];
      SumBounds(front, f);
      assert forall i :: 0 <= i < |front| ==> f(s[i]) == f(front[i]);
    }
  }

  lemma {:induction false} SumOfConstant<T>(s: seq<T>, f: T -> int, k: int)
    requires forall i :: 0 <= i < |s| ==> f(s[i]) == k
    ensures Sum(s, f) == k * |s|
  {
    if s != [] {
      SumOfConstant(s[..|s| - 1], f, k);
    }
  }

  lemma {:induction false} SumOfConcat<T>(s: seq<T>, t: seq<T>, f: T -> int)
    ensures Sum(s + t, f) == Sum(s, f) + Sum(t, f)
  {
    if t == [] {
      assert s + t == s;
    } else {
      assert (s + t)[..|s + t| - 1] == s + t[..|t| - 1];
      SumOfConcat(s, t[..|t| - 1], f);
    }
  }

  lemma {:induction false} SumOfEqual<T>(s: seq<T>, f: T -> int, g: T -> int)
    requires forall i :: 0 <= i < |s| ==> f(s[i]) == g(s[i])
    ensures Sum(s, f) == Sum(s, g)
  {
    if s != [] {
      SumOfEqual(s[..|s| - 1], f, g);
    }
  }

  // If no term of the one sum exceeds that of the other, the sums are equal only if all terms are.
  lemma {:induction false} SumsEqual<T>(s: seq<T>, f: T -> int, g: T -> int)
    requires forall i :: 0 <= i < |s| ==> f(s[i]) <= g(s[i])
    ensures Sum(s, f) <= Sum(s, g)
    ensures Sum(s, f) == Sum(s, g) ==> forall i :: 0 <= i < |s| ==> f(s[i]) == g(s[i])
  {
    if s != [] {
      var front := s[..|s| - 1];
      SumsEqual(front, f, g);
      assert forall i :: 0 <= i < |front| ==> s[i] == front[i];
    }
  }

  // The numbers below `n` with the property; one more, if it has it, makes one more.
  function Below(n: nat, p: int -> bool): set<int> {
    set i | 0 <= i < n && p(i)
  }

  lemma OneMoreBelow(n: nat, p: int -> bool)
    ensures Below(0, p) == {}
    ensures |Below(n + 1, p)| == |Below(n, p)| + if p(n) then 1 else 0
  {
    assert Below(n + 1, p) == Below(n, p) + if p(n) then {n} else {};
  }

  // The first place of an element with the property, or the length if there is none.
  function FirstAt<T>(s: seq<T>, p: T -> bool): (i: nat)
    ensures i < |s| ==> p(s[i])
    ensures i >= |s| ==> forall j :: 0 <= j < |s| ==> !p(s[j])
  {
    if s == [] then 0
    else
      var i := FirstAt(s[..|s| - 1], p);
      if i < |s| - 1 then i
      else if p(s[|s| - 1]) then |s| - 1 else |s|
  }
}
