/** The session sizes offered for a section: the loop in the section
    selector's change handler. */
module SizeOptions {

  /** 5, 10, ..., 5 * k. */
  function MultiplesOfFive(k: nat): (r: seq<int>)
    ensures |r| == k
    ensures forall m :: 0 <= m < k ==> r[m] == 5 * (m + 1)
  {
    if k == 0 then [] else MultiplesOfFive(k - 1) + [5 * k]
  }

  /** The sizes the handler offers for a section of `count` questions: every
      multiple of five up to the count, then the count itself when it is not
      one of them (or is below five); a lone 0 when the count is not positive. */
  function OfferedSizes(count: int): seq<int> {
    if count <= 0 then [0]
    else MultiplesOfFive(count / 5) + (if count % 5 != 0 || count < 5 then [count] else [])
  }

  predicate StrictlyAscending(s: seq<int>) {
    forall i, j :: 0 <= i < j < |s| ==> s[i] < s[j]
  }

  /** The option-building loop: `for (let i = 5; i <= questionCount; i += 5)`
      followed by the extra option for the count itself. */
  method SizeOptions(count: int) returns (opts: seq<int>)
    ensures opts == OfferedSizes(count)
  {
    if count > 0 {
      opts := [];
      var i := 5;
      while i <= count
        invariant 5 <= i <= count + 5 && i % 5 == 0
        invariant opts == MultiplesOfFive(i / 5 - 1)
        decreases count - i
      {
        opts := opts + [i];
        i := i + 5;
      }
      assert i / 5 - 1 == count / 5;
      if count % 5 != 0 || count < 5 {
        opts := opts + [count];
      }
    } else {
      opts := [0];
    }
  }

  /** What the offered sizes are for a positive count: strictly ascending, so
      without duplicates, all between 5 (or the count, if smaller) and the
      count, ending with the count itself; and a size is offered exactly when
      it is the count or a multiple of five not above it. */
  lemma {:induction false} OfferedSizesShape(count: int)
    requires count > 0
    ensures var s := OfferedSizes(count);
      |s| > 0 && s[|s| - 1] == count && StrictlyAscending(s) &&
      (forall k :: 0 <= k < |s| ==> 0 < s[k] <= count) &&
      (forall x :: x in s <==> x == count || (x % 5 == 0 && 5 <= x <= count))
  {
    var s := OfferedSizes(count);
    var m := MultiplesOfFive(count / 5);
    forall x | x % 5 == 0 && 5 <= x <= count
      ensures x in m
    {
      assert m[x / 5 - 1] == x;
    }
    if count % 5 == 0 && count >= 5 {
      assert s[|s| - 1] == m[count / 5 - 1] == count;
    }
  }
}
