/** The in-place Fisher–Yates shuffle `shuffleArray`. The random index
    Math.floor(Math.random() * (i + 1)) is replaced by picks[i], supplied by the
    caller, so every property below holds for every sequence of random draws. */
module Shuffle {

  /** Swap indices the caller may supply: position i is exchanged with some
      position in 0..i. Entries past the array's length are ignored. */
  predicate ValidPicks(picks: seq<nat>) {
    forall i :: 0 <= i < |picks| ==> picks[i] <= i
  }

  predicate Distinct<T(==)>(s: seq<T>) {
    forall i, j :: 0 <= i < j < |s| ==> s[i] != s[j]
  }

  /** `[array[i], array[j]] = [array[j], array[i]]` on a sequence. */
  function Swap<T>(s: seq<T>, i: nat, j: nat): seq<T>
    requires i < |s| && j < |s|
  {
    s[i := s[j]][j := s[i]]
  }

  /** What shuffleArray leaves in an array holding s: the last position is
      swapped with position picks[|s| - 1] and is never touched again, and the
      loop goes on with the prefix before it. */
  function Shuffled<T>(s: seq<T>, picks: seq<nat>): (r: seq<T>)
    requires ValidPicks(picks) && |s| <= |picks|
    decreases |s|
  {
    if |s| <= 1 then s
    else
      var n := |s| - 1;
      var t := Swap(s, n, picks[n]);
      Shuffled(t[..n], picks) + [t[n]]
  }

  lemma SwapPermutes<T>(s: seq<T>, i: nat, j: nat)
    requires i < |s| && j < |s|
    ensures multiset(Swap(s, i, j)) == multiset(s)
  {
  }

  lemma SwapKeepsDistinct<T>(s: seq<T>, i: nat, j: nat)
    requires i < |s| && j < |s| && Distinct(s)
    ensures Distinct(Swap(s, i, j))
  {
  }

  /** The shuffle is a permutation: same length, same multiset of elements,
      for every length (0 and 1 included) and every choice of swap indices. */
  lemma {:induction false} ShuffledIsPermutation<T>(s: seq<T>, picks: seq<nat>)
    requires ValidPicks(picks) && |s| <= |picks|
    decreases |s|
    ensures |Shuffled(s, picks)| == |s|
    ensures multiset(Shuffled(s, picks)) == multiset(s)
  {
    if |s| > 1 {
      var n := |s| - 1;
      var t := Swap(s, n, picks[n]);
      ShuffledIsPermutation(t[..n], picks);
      SwapPermutes(s, n, picks[n]);
      AppendLast(s, t, n, Shuffled(t[..n], picks));
    }
  }

  /** A permutation of all but the last element of t, followed by that last
      element, is a permutation of t, and so of anything t permutes. */
  lemma AppendLast<T>(s: seq<T>, t: seq<T>, n: nat, u: seq<T>)
    requires |t| == n + 1 && multiset(t) == multiset(s)
    requires |u| == n && multiset(u) == multiset(t[..n])
    ensures |u + [t[n]]| == |s|
    ensures multiset(u + [t[n]]) == multiset(s)
  {
    assert t == t[..n] + [t[n]];
    assert |multiset(t)| == |t|;
  }

  /** Only the first |s| swap indices matter. */
  lemma {:induction false} ShuffledUsesPrefix<T>(s: seq<T>, p: seq<nat>, q: seq<nat>)
    requires ValidPicks(p) && |s| <= |p|
    requires ValidPicks(q) && |s| <= |q|
    requires p[..|s|] == q[..|s|]
    decreases |s|
    ensures Shuffled(s, p) == Shuffled(s, q)
  {
    if |s| > 1 {
      var n := |s| - 1;
      assert p[n] == p[..|s|][n] == q[..|s|][n] == q[n];
      var t := Swap(s, n, p[n]);
      assert p[..n] == p[..|s|][..n] && q[..n] == q[..|s|][..n];
      ShuffledUsesPrefix(t[..n], p, q);
    }
  }

  /** One unfolding of Shuffled at its last position n: the element there is
      s[picks[n]] and the prefix before it is the shuffle of the swapped prefix. */
  lemma ShuffledLast<T>(s: seq<T>, picks: seq<nat>, n: nat)
    requires ValidPicks(picks) && |s| == n + 1 && 0 < n < |picks|
    ensures |Shuffled(s, picks)| == n + 1
    ensures Shuffled(s, picks)[n] == s[picks[n]]
    ensures Shuffled(s, picks)[..n] == Shuffled(Swap(s, n, picks[n])[..n], picks)
  {
    ShuffledIsPermutation(Swap(s, n, picks[n])[..n], picks);
  }

  /** One turn of the loop in shuffleArray, on sequences: swapping position i
      with j turns "shuffle the first i + 1 elements" into "shuffle the first i". */
  lemma LoopStep<T>(before: seq<T>, after: seq<T>, i: nat, j: nat, picks: seq<nat>)
    requires ValidPicks(picks) && |before| <= |picks|
    requires 0 < i < |before| && j == picks[i]
    requires after == Swap(before, i, j)
    ensures Shuffled(before[..i + 1], picks) + before[i + 1..] == Shuffled(after[..i], picks) + after[i..]
  {
    var u := before[..i + 1];
    var w := Swap(u, i, j);
    SwapOfPrefix(before, after, i, j);
    UnfoldBeforeTail(u, w, before[i + 1..], i, picks);
  }

  /** One unfolding of Shuffled on u, with a tail kept after it. */
  lemma UnfoldBeforeTail<T>(u: seq<T>, w: seq<T>, tail: seq<T>, i: nat, picks: seq<nat>)
    requires ValidPicks(picks) && |u| == i + 1 && 0 < i < |picks|
    requires w == Swap(u, i, picks[i])
    ensures Shuffled(u, picks) + tail == Shuffled(w[..i], picks) + ([w[i]] + tail)
  {
    assert Shuffled(u, picks) == Shuffled(w[..i], picks) + [w[i]];
  }

  /** Swapping i and j <= i inside the first i + 1 elements is the same as
      swapping them in the whole sequence; the elements past i stay put. */
  lemma SwapOfPrefix<T>(before: seq<T>, after: seq<T>, i: nat, j: nat)
    requires j <= i < |before| && after == Swap(before, i, j)
    ensures Swap(before[..i + 1], i, j)[..i] == after[..i]
    ensures Swap(before[..i + 1], i, j)[i] == after[i]
    ensures after[i..] == [after[i]] + before[i + 1..]
  {
    assert Swap(before[..i + 1], i, j) == after[..i + 1];
  }

  /** Two permutations of each other that end alike are permutations of each
      other without their last element. */
  lemma DropCommonLast<T>(t: seq<T>, target: seq<T>, n: nat)
    requires |t| == |target| == n + 1 && t[n] == target[n]
    requires multiset(t) == multiset(target)
    ensures multiset(t[..n]) == multiset(target[..n])
  {
    var x := t[n];
    assert t == t[..n] + [x];
    assert target == target[..n] + [x];
    calc {
      multiset(t[..n]);
      multiset(t) - multiset{x};
      multiset(target) - multiset{x};
      multiset(target[..n]);
    }
  }

  /** Every permutation of s is the outcome of some choice of swap indices. */
  lemma {:induction false} EveryPermutationReachable<T>(s: seq<T>, target: seq<T>)
    requires multiset(target) == multiset(s)
    ensures exists picks: seq<nat> :: |picks| == |s| && ValidPicks(picks) && Shuffled(s, picks) == target
    decreases |s|
  {
    assert |target| == |multiset(target)| == |s|;
    if |s| == 0 {
      assert Shuffled(s, []) == target;
    } else if |s| == 1 {
      assert target[0] in multiset(s);
      assert Shuffled(s, [0]) == target;
    } else {
      var n := |s| - 1;
      var j := ChooseLast(s, target, n);
      var t := Swap(s, n, j);
      EveryPermutationReachable(t[..n], target[..n]);
      var rest: seq<nat> :| |rest| == n && ValidPicks(rest) && Shuffled(t[..n], rest) == target[..n];
      ExtendPicks(s, target, n, rest, j);
    }
  }

  /** The first step of reaching target: a position j of s holding target's
      last element n, after whose swap the prefixes are permutations of each other. */
  lemma ChooseLast<T>(s: seq<T>, target: seq<T>, n: nat) returns (j: nat)
    requires |s| == |target| == n + 1 && n > 0 && multiset(target) == multiset(s)
    ensures j <= n && s[j] == target[n]
    ensures multiset(Swap(s, n, j)[..n]) == multiset(target[..n])
  {
    assert target[n] in multiset(s);
    j :| 0 <= j < |s| && s[j] == target[n];
    SwapPermutes(s, n, j);
    DropCommonLast(Swap(s, n, j), target, n);
  }

  /** The inductive step of EveryPermutationReachable: picks for the prefix,
      followed by the index of the element that must end up last. */
  lemma ExtendPicks<T>(s: seq<T>, target: seq<T>, n: nat, rest: seq<nat>, j: nat)
    requires |s| == |target| == n + 1 && n > 0 && |rest| == n && ValidPicks(rest)
    requires j <= n && s[j] == target[n]
    requires Shuffled(Swap(s, n, j)[..n], rest) == target[..n]
    ensures |rest + [j]| == |s| && ValidPicks(rest + [j]) && Shuffled(s, rest + [j]) == target
  {
    var picks := rest + [j];
    assert picks[..n] == rest && picks[n] == j;
    var u := Swap(s, n, j)[..n];
    ShuffledUsesPrefix(u, picks, rest);
    ShuffledLast(s, picks, n);
    var r := Shuffled(s, picks);
    SameByLast(r, target, n);
  }

  lemma SameByLast<T>(r: seq<T>, target: seq<T>, n: nat)
    requires |r| == |target| == n + 1
    requires r[..n] == target[..n] && r[n] == target[n]
    ensures r == target
  {
    assert r == r[..n] + [r[n]];
    assert target == target[..n] + [target[n]];
  }

  /** On distinct elements, different swap indices give different orders.
      With this and EveryPermutationReachable, the picks of length |s| are in
      one-to-one correspondence with the permutations of s: drawing each pick
      uniformly from 0..i draws every permutation with the same chance. */
  lemma {:induction false} ShuffledIsInjective<T>(s: seq<T>, p: seq<nat>, q: seq<nat>)
    requires Distinct(s)
    requires ValidPicks(p) && |s| <= |p|
    requires ValidPicks(q) && |s| <= |q|
    requires Shuffled(s, p) == Shuffled(s, q)
    ensures p[..|s|] == q[..|s|]
    decreases |s|
  {
    if |s| == 1 {
      assert p[0] == 0 == q[0];
    } else if |s| > 1 {
      var n := |s| - 1;
      var tp := Swap(s, n, p[n]);
      ShuffledLast(s, p, n);
      ShuffledLast(s, q, n);
      assert p[n] == q[n];
      SwapKeepsDistinct(s, n, p[n]);
      ShuffledIsInjective(tp[..n], p, q);
      assert p[..|s|] == p[..n] + [p[n]];
      assert q[..|s|] == q[..n] + [q[n]];
    }
  }

  /** shuffleArray: shuffles `a` in place and returns the same array. */
  method ShuffleArray<T>(a: array<T>, picks: seq<nat>) returns (r: array<T>)
    requires ValidPicks(picks) && a.Length <= |picks|
    modifies a
    ensures r == a
    ensures a[..] == Shuffled(old(a[..]), picks)
    ensures multiset(a[..]) == multiset(old(a[..]))
  {
    var i := a.Length - 1;
    assert a[..i + 1] == a[..] && a[i + 1..] == [];
    while i > 0
      invariant -1 <= i < a.Length
      invariant a.Length > 0 ==> i >= 0
      invariant Shuffled(a[..i + 1], picks) + a[i + 1..] == Shuffled(old(a[..]), picks)
    {
      var j := picks[i];
      ghost var before := a[..];
      a[i], a[j] := a[j], a[i];
      LoopStep(before, a[..], i, j, picks);
      i := i - 1;
    }
    assert a[..i + 1] == Shuffled(a[..i + 1], picks);
    assert a[..] == a[..i + 1] + a[i + 1..];
    ShuffledIsPermutation(old(a[..]), picks);
    r := a;
  }
}
