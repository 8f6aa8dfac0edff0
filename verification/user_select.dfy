/**
  The user select component's state: checkbox changes are folded into a
  sequence of selected user indices, which is then resolved against the
  current user list. Checking appends the index and re-sorts with the
  default (string) order, without removing duplicates; unchecking removes
  every copy of the index.
 */
module UserSelect {
  import opened Interfaces
  import opened Seqs
  import opened JsSort

  /** A checkbox change: the index of the user whose box changed and its new state. */
  datatype Toggle = Toggle(index: nat, checked: bool)

  /** `acc.concat([i]).sort()`: one more copy of `i`, in default sort order. */
  function Check(acc: seq<nat>, i: nat): (r: seq<nat>)
    ensures multiset(r) == multiset(acc) + multiset{i}
    ensures |r| == |acc| + 1 && i in r
    ensures JsSorted(r)
  {
    var sorted := DefaultSort(acc + [i]);
    assert multiset(acc + [i]) == multiset(acc) + multiset{i};
    assert i in multiset(sorted);
    sorted
  }

  /** `acc.filter(x => x !== i)`: every copy of `i` gone, the rest kept in order. */
  function Uncheck(acc: seq<nat>, i: nat): (r: seq<nat>)
    ensures i !in r
    ensures forall x :: x != i ==> multiset(r)[x] == multiset(acc)[x]
    ensures IsSubseq(r, acc)
    ensures JsSorted(acc) ==> JsSorted(r)
  {
    var kept := Filter(acc, (x: nat) => x != i);
    if JsSorted(acc) then SubseqKeepsSorted(kept, acc); kept else kept
  }

  /** The fold step. */
  function Step(acc: seq<nat>, toggle: Toggle): seq<nat>
  {
    if toggle.checked then Check(acc, toggle.index) else Uncheck(acc, toggle.index)
  }

  /** The accumulator after a sequence of checkbox changes, starting from `[]`:
      whatever happened, it is in default sort order. */
  function Accumulate(toggles: seq<Toggle>): (r: seq<nat>)
    ensures JsSorted(r)
  {
    if |toggles| == 0 then []
    else Step(Accumulate(toggles[..|toggles| - 1]), toggles[|toggles| - 1])
  }

  /** The box of user `x` is checked: the last change to it checked it. */
  predicate IsOn(toggles: seq<Toggle>, x: nat)
  {
    if |toggles| == 0 then false
    else if toggles[|toggles| - 1].index == x then toggles[|toggles| - 1].checked
    else IsOn(toggles[..|toggles| - 1], x)
  }

  /** An index is selected exactly when the last change to its box checked it. */
  lemma {:induction false} AccumulateMembers(toggles: seq<Toggle>, x: nat)
    ensures x in Accumulate(toggles) <==> IsOn(toggles, x)
  {
    if |toggles| > 0 {
      var last := toggles[|toggles| - 1];
      var before: seq<nat> := Accumulate(toggles[..|toggles| - 1]);
      var after: seq<nat> := Accumulate(toggles);
      assert after == Step(before, last);
      AccumulateMembers(toggles[..|toggles| - 1], x);
      if last.checked {
        assert multiset(after)[x] == multiset(before)[x] + (if last.index == x then 1 else 0);
      } else if last.index != x {
        assert multiset(after)[x] == multiset(before)[x];
      }
    }
  }

  /** Unchecking an index that is not selected changes nothing. */
  lemma UncheckAbsent(acc: seq<nat>, i: nat)
    requires i !in acc
    ensures Uncheck(acc, i) == acc
  {
    FilterKeepsAll(acc, (x: nat) => x != i);
  }

  /** Unchecking twice is unchecking once. */
  lemma {:induction false} UncheckIdempotent(acc: seq<nat>, i: nat)
    ensures Uncheck(Uncheck(acc, i), i) == Uncheck(acc, i)
  {
    UncheckAbsent(Uncheck(acc, i), i);
  }

  /** Checking an index that is already selected adds a second copy. */
  lemma CheckTwiceDuplicates(acc: seq<nat>, i: nat)
    ensures multiset(Check(Check(acc, i), i))[i] == multiset(acc)[i] + 2
  {
  }

  /** The selection is ordered as strings, not as numbers: checking 10 after 2 gives [10, 2]. */
  lemma CheckOrdersAsStrings()
    ensures Check([2], 10) == [10, 2]
  {
    assert [2] + [10] == [2, 10];
    TenSortsBeforeTwo();
  }

  /** From a sorted accumulator without `i`, checking and then unchecking `i`
      restores it exactly. */
  lemma CheckThenUncheck(acc: seq<nat>, i: nat)
    requires JsSorted(acc)
    requires i !in acc
    ensures Uncheck(Check(acc, i), i) == acc
  {
    var r := Uncheck(Check(acc, i), i);
    assert forall x :: multiset(r)[x] == multiset(acc)[x];
    assert multiset(r) == multiset(acc);
    SortedUnique(r, acc);
  }

  /** Checking a box that was off and unchecking it again leaves the selection as it was. */
  lemma {:induction false} ToggleOnOffRestores(toggles: seq<Toggle>, i: nat)
    requires i !in Accumulate(toggles)
    ensures Accumulate(toggles + [Toggle(i, true), Toggle(i, false)]) == Accumulate(toggles)
  {
    var all := toggles + [Toggle(i, true), Toggle(i, false)];
    assert all[..|all| - 1] == toggles + [Toggle(i, true)];
    assert (toggles + [Toggle(i, true)])[..|toggles|] == toggles;
    CheckThenUncheck(Accumulate(toggles), i);
  }

  /** No index occurs twice. */
  ghost predicate NoDuplicates(s: seq<nat>)
  {
    forall x :: multiset(s)[x] <= 1
  }

  /** Checkbox changes as a browser delivers them: a box is checked only when it is off. */
  predicate Alternating(toggles: seq<Toggle>)
  {
    forall n :: 0 <= n < |toggles| && toggles[n].checked ==> !IsOn(toggles[..n], toggles[n].index)
  }

  /** Alternating changes never select an index twice. */
  lemma {:induction false} AlternatingHasNoDuplicates(toggles: seq<Toggle>)
    requires Alternating(toggles)
    ensures NoDuplicates(Accumulate(toggles))
  {
    if |toggles| > 0 {
      var n := |toggles| - 1;
      var prefix := toggles[..n];
      assert Alternating(prefix) by {
        forall m | 0 <= m < |prefix| && prefix[m].checked
          ensures !IsOn(prefix[..m], prefix[m].index)
        {
          assert prefix[..m] == toggles[..m];
        }
      }
      AlternatingHasNoDuplicates(prefix);
      if toggles[n].checked {
        assert toggles[..n] == prefix;
        AccumulateMembers(prefix, toggles[n].index);
      }
    }
  }

  /** Two alternating histories that leave the same boxes checked give the
      same selection, whatever order the boxes were changed in. */
  lemma {:induction false} SameNetSelection(toggles1: seq<Toggle>, toggles2: seq<Toggle>)
    requires Alternating(toggles1) && Alternating(toggles2)
    requires forall x :: IsOn(toggles1, x) == IsOn(toggles2, x)
    ensures Accumulate(toggles1) == Accumulate(toggles2)
  {
    AlternatingHasNoDuplicates(toggles1);
    AlternatingHasNoDuplicates(toggles2);
    var a, b := Accumulate(toggles1), Accumulate(toggles2);
    forall x
      ensures multiset(a)[x] == multiset(b)[x]
    {
      AccumulateMembers(toggles1, x);
      AccumulateMembers(toggles2, x);
    }
    assert multiset(a) == multiset(b);
    SortedUnique(a, b);
  }

  /** `is.map(i => users[i])`, where an index past the end of the user list
      (JavaScript's `undefined`) makes the whole resolution fail. */
  function Resolve(acc: seq<nat>, users: seq<User>): (r: Option<seq<User>>)
    ensures r.Some? <==> forall k :: 0 <= k < |acc| ==> acc[k] < |users|
    ensures r.Some? ==> |r.value| == |acc|
    ensures r.Some? ==> forall k :: 0 <= k < |acc| ==> r.value[k] == users[acc[k]]
  {
    if |acc| == 0 then Some([])
    else if acc[0] < |users| then
      match Resolve(acc[1..], users)
      case None => None
      case Some(rest) => Some([users[acc[0]]] + rest)
    else None
  }
}
