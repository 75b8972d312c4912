/**
 Counting and shuffling, the two list operations whose outcome the password
 and plate-number generators depend on.
 */
module Lists {

  /** How many elements of `s` satisfy `p`. */
  function Count<T>(s: seq<T>, p: T -> bool): nat
  {
    if s == [] then 0 else (if p(s[0]) then 1 else 0) + Count(s[1..], p)
  }

  lemma {:induction false} CountAppend<T>(a: seq<T>, b: seq<T>, p: T -> bool)
    ensures Count(a + b, p) == Count(a, p) + Count(b, p)
  {
    if a != [] {
      assert (a + b)[1..] == a[1..] + b;
      CountAppend(a[1..], b, p);
    } else {
      assert a + b == b;
    }
  }

  lemma CountPair<T>(a: T, b: T, p: T -> bool)
    ensures Count([a, b], p) == (if p(a) then 1 else 0) + (if p(b) then 1 else 0)
  {
    assert [a, b][1..] == [b];
    assert [b][1..] == [];
    assert Count([b], p) == (if p(b) then 1 else 0) + Count([], p);
  }

  /** A count is the length when every element qualifies and zero when
      none does. */
  lemma {:induction false} CountAllOrNone<T>(s: seq<T>, p: T -> bool)
    ensures (forall i :: 0 <= i < |s| ==> p(s[i])) ==> Count(s, p) == |s|
    ensures (forall i :: 0 <= i < |s| ==> !p(s[i])) ==> Count(s, p) == 0
  {
    if s != [] {
      CountAllOrNone(s[1..], p);
      assert forall i :: 1 <= i < |s| ==> s[1..][i - 1] == s[i];
    }
  }

  /** Reordering a sequence keeps every count: a count depends only on the
      multiset of elements. */
  lemma {:induction false} CountPermutation<T>(s: seq<T>, t: seq<T>, p: T -> bool)
    requires multiset(s) == multiset(t)
    ensures Count(s, p) == Count(t, p)
    decreases |s|
  {
    if s == [] {
      assert |t| == |multiset(t)| == 0;
    } else {
      var x := s[0];
      assert x in t by {
        assert x in multiset(s);
      }
      var j := IndexOf(t, x);
      var rest := RemoveAt(t, j, p);
      assert multiset(s[1..]) == multiset(rest) by {
        assert s == [x] + s[1..];
        assert multiset(s[1..]) == multiset(s) - multiset{x};
      }
      CountPermutation(s[1..], rest, p);
      assert Count(s, p) == (if p(x) then 1 else 0) + Count(s[1..], p);
    }
  }

  lemma IndexOf<T>(t: seq<T>, x: T) returns (j: int)
    requires x in t
    ensures 0 <= j < |t| && t[j] == x
  {
    j :| 0 <= j < |t| && t[j] == x;
  }

  /** Taking out the element at `j` takes it out of the multiset and
      lowers the count by its own contribution. */
  lemma RemoveAt<T>(t: seq<T>, j: int, p: T -> bool) returns (rest: seq<T>)
    requires 0 <= j < |t|
    ensures rest == t[..j] + t[j + 1..]
    ensures multiset(rest) == multiset(t) - multiset{t[j]}
    ensures Count(t, p) == Count(rest, p) + (if p(t[j]) then 1 else 0)
  {
    rest := t[..j] + t[j + 1..];
    assert t == t[..j] + [t[j]] + t[j + 1..];
    assert multiset(t) == multiset(t[..j]) + multiset{t[j]} + multiset(t[j + 1..]);
    CountAppend(t[..j] + [t[j]], t[j + 1..], p);
    CountAppend(t[..j], [t[j]], p);
    CountAppend(t[..j], t[j + 1..], p);
  }

  /** `Collections.shuffle` on a random-access list: for `i` from the size
      down to 2 it swaps position `i - 1` with position `rnd.nextInt(i)`.
      The draw for position `k` is `swaps[k]`, a number in `[0, k]`.  */
  method Shuffle<T>(s: seq<T>, swaps: seq<int>) returns (r: seq<T>)
    requires |swaps| >= |s|
    requires forall k :: 1 <= k < |s| ==> 0 <= swaps[k] <= k
    ensures |r| == |s|
    ensures multiset(r) == multiset(s)
  {
    r := s;
    var i := |s|;
    while i > 1
      invariant 0 <= i <= |s|
      invariant |r| == |s|
      invariant multiset(r) == multiset(s)
    {
      var j := swaps[i - 1];
      r := r[i - 1 := r[j]][j := r[i - 1]];
      i := i - 1;
    }
  }
}
