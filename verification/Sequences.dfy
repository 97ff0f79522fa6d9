/** Runs are sequences that grow at their end: all but the last step, and the last step. */
module Sequences {

  function Front<T>(s: seq<T>): seq<T>
    requires s != []
  {
    s[..|s| - 1]
  }

  function Last<T>(s: seq<T>): T
    requires s != []
  {
    s[|s| - 1]
  }

  lemma Append<T>(a: seq<T>, x: T)
    ensures Front(a + [x]) == a && Last(a + [x]) == x
  {
  }

  /** `list::remove`: every equal element goes. */
  function Without<T(==)>(list: seq<T>, x: T): seq<T> {
    if list == [] then [] else Without(Front(list), x) + (if Last(list) == x then [] else [Last(list)])
  }

  /** The other elements stay, as often as they were there. */
  lemma {:induction false} WithoutKeepsOthers<T>(list: seq<T>, x: T)
    ensures multiset(Without(list, x)) == multiset(list)[x := 0]
  {
    if list != [] {
      WithoutKeepsOthers(Front(list), x);
      assert list == Front(list) + [Last(list)];
    }
  }

  /** `result` consists of the elements of `list` at the places `at`, in order, and those are all places without `x`. */
  ghost predicate Picks<T>(list: seq<T>, x: T, result: seq<T>, at: seq<nat>) {
    && |at| == |result|
    && (forall j, k | 0 <= j < k < |at| :: at[j] < at[k])
    && (forall k | 0 <= k < |at| :: at[k] < |list| && result[k] == list[at[k]])
    && (forall i | 0 <= i < |list| && list[i] != x :: i in at)
    && (forall k | 0 <= k < |at| :: list[at[k]] != x)
  }

  /** The other elements stay in their order. */
  lemma {:induction false} WithoutPicks<T>(list: seq<T>, x: T) returns (at: seq<nat>)
    ensures Picks(list, x, Without(list, x), at)
  {
    if list == [] {
      return [];
    }
    at := WithoutPicks(Front(list), x);
    if Last(list) != x {
      PicksLast(list, x, Without(Front(list), x), at);
      at := at + [|list| - 1];
    } else {
      PicksFront(list, x, Without(list, x), at);
    }
  }

  lemma PicksLast<T>(list: seq<T>, x: T, result: seq<T>, at: seq<nat>)
    requires list != [] && Last(list) != x && Picks(Front(list), x, result, at)
    ensures Picks(list, x, result + [Last(list)], at + [|list| - 1])
  {
    var more := at + [|list| - 1];
    forall i | 0 <= i < |list| && list[i] != x
      ensures i in more
    {
      if i < |list| - 1 {
        assert Front(list)[i] != x;
      }
    }
  }

  lemma PicksFront<T>(list: seq<T>, x: T, result: seq<T>, at: seq<nat>)
    requires list != [] && Last(list) == x && Picks(Front(list), x, result, at)
    ensures Picks(list, x, result, at)
  {
    forall i | 0 <= i < |list| && list[i] != x
      ensures i in at
    {
      assert Front(list)[i] != x;
    }
  }
}
