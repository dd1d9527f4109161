/** Greedy cutting of a sequence into consecutive groups.

    Both loops of the packer, the one that fills frames and the one that splits an
    oversized batch, cut a sequence left to right and open a new group exactly when
    the next element does not fit in the current one.  This module states what such a
    cut is and proves that no other cut into fitting groups has fewer groups. */
module Partition {

  function Concat<T>(groups: seq<seq<T>>): seq<T> {
    if groups == [] then [] else groups[0] + Concat(groups[1..])
  }

  /** The greedy cut, one element at a time from the left. */
  ghost function Greedy<T(!new)>(s: seq<T>, fits: seq<T> -> bool): (groups: seq<seq<T>>)
  {
    if s == [] then [] else Extend(Greedy(s[..|s| - 1], fits), s[|s| - 1], fits)
  }

  ghost function Extend<T(!new)>(groups: seq<seq<T>>, x: T, fits: seq<T> -> bool): seq<seq<T>> {
    if groups != [] && fits(groups[|groups| - 1] + [x])
    then groups[..|groups| - 1] + [groups[|groups| - 1] + [x]]
    else groups + [[x]]
  }

  /** A stretch of a group that fits also fits. */
  ghost predicate Hereditary<T(!new)>(fits: seq<T> -> bool) {
    forall s: seq<T>, i: nat, j: nat {:trigger fits(s), s[i..j]} :: i < j <= |s| && fits(s) ==> fits(s[i..j])
  }

  ghost predicate SinglesFit<T(!new)>(fits: seq<T> -> bool) {
    forall x: T {:trigger [x]} :: fits([x])
  }

  ghost predicate AllFit<T(!new)>(groups: seq<seq<T>>, fits: seq<T> -> bool) {
    forall k :: 0 <= k < |groups| ==> groups[k] != [] && fits(groups[k])
  }

  /** Every group is as long as it could be: the element that opens the next one did
      not fit any more. */
  ghost predicate Maximal<T(!new)>(groups: seq<seq<T>>, fits: seq<T> -> bool) {
    forall k :: 1 <= k < |groups| ==> groups[k] != [] && !fits(groups[k - 1] + [groups[k][0]])
  }

  lemma {:induction false} ConcatAppend<T>(a: seq<seq<T>>, b: seq<seq<T>>)
    ensures Concat(a + b) == Concat(a) + Concat(b)
  {
    if a == [] {
      assert a + b == b;
    } else {
      assert (a + b)[1..] == a[1..] + b;
      ConcatAppend(a[1..], b);
    }
  }

  lemma ConcatSnoc<T>(a: seq<seq<T>>, g: seq<T>)
    ensures Concat(a + [g]) == Concat(a) + g
  {
    ConcatAppend(a, [g]);
    assert [g][1..] == [];
    assert Concat([g]) == g;
  }

  lemma ExtendIsMaximal<T(!new)>(groups: seq<seq<T>>, x: T, fits: seq<T> -> bool)
    requires fits([x]) && AllFit(groups, fits) && Maximal(groups, fits)
    ensures Concat(Extend(groups, x, fits)) == Concat(groups) + [x]
    ensures AllFit(Extend(groups, x, fits), fits) && Maximal(Extend(groups, x, fits), fits)
  {
    var next := Extend(groups, x, fits);
    if groups != [] && fits(groups[|groups| - 1] + [x]) {
      var init, last := groups[..|groups| - 1], groups[|groups| - 1];
      assert groups == init + [last];
      ConcatSnoc(init, last);
      ConcatSnoc(init, last + [x]);
      forall k | 1 <= k < |next| ensures next[k] != [] && !fits(next[k - 1] + [next[k][0]]) {
        assert next[k - 1] == groups[k - 1] && next[k][0] == groups[k][0];
      }
    } else {
      ConcatSnoc(groups, [x]);
    }
  }

  lemma NoGroups<T(!new)>(fits: seq<T> -> bool)
    ensures AllFit([], fits) && Maximal([], fits)
  {
  }

  /** The greedy cut loses nothing, keeps the order, and all its groups fit and are maximal. */
  lemma {:induction false} GreedyIsMaximalPartition<T(!new)>(s: seq<T>, fits: seq<T> -> bool)
    requires SinglesFit(fits)
    ensures Concat(Greedy(s, fits)) == s
    ensures AllFit(Greedy(s, fits), fits)
    ensures Maximal(Greedy(s, fits), fits)
  {
    hide AllFit, Maximal, Extend;
    if s == [] {
      NoGroups(fits);
    } else {
      var before, x := s[..|s| - 1], s[|s| - 1];
      assert s == before + [x];
      assert fits([x]);
      GreedyIsMaximalPartition(before, fits);
      ExtendIsMaximal(Greedy(before, fits), x, fits);
    }
  }

  /** If `a` reaches past `g` in the same sequence, `g` and the element after it lie inside `a`. */
  lemma StretchFits<T(!new)>(a: seq<T>, after: seq<T>, skipped: seq<T>, g: seq<T>, x: T, tail: seq<T>,
                             fits: seq<T> -> bool)
    requires Hereditary(fits) && fits(a)
    requires a + after == skipped + (g + ([x] + tail))
    requires |skipped| + |g| < |a|
    ensures fits(g + [x])
  {
    var i, j := |skipped|, |skipped| + |g| + 1;
    assert (a + after)[i..j] == a[i..j];
    assert (skipped + (g + ([x] + tail)))[i..j] == g + [x];
    assert fits(a[i..j]);
  }

  /** No other cut into fitting groups is shorter.  Stated for a cut of any sequence that
      ends in `Concat(groups)`, which is what the induction needs. */
  lemma {:induction false} MaximalIsFewest<T(!new)>(
    groups: seq<seq<T>>, other: seq<seq<T>>, skipped: seq<T>, fits: seq<T> -> bool)
    requires Hereditary(fits)
    requires AllFit(groups, fits) && Maximal(groups, fits)
    requires forall k :: 0 <= k < |other| ==> fits(other[k])
    requires Concat(other) == skipped + Concat(groups)
    ensures |groups| <= |other|
  {
    if groups != [] {
      var g, a := groups[0], if other == [] then [] else other[0];
      assert g != [];
      assert other != [];
      var rest, otherRest := Concat(groups[1..]), Concat(other[1..]);
      assert a + otherRest == skipped + (g + rest);
      if 1 < |groups| {
        var x, tail := groups[1][0], groups[1][1..] + Concat(groups[1..][1..]);
        assert rest == [x] + tail;
        if |skipped| + |g| < |a| {
          StretchFits(a, otherRest, skipped, g, x, tail, fits);
          assert false;
        }
        var left := (skipped + g)[|a|..];
        assert otherRest == (a + otherRest)[|a|..];
        assert (skipped + (g + rest)) == (skipped + g) + rest;
        assert otherRest == left + rest;
        MaximalIsFewest(groups[1..], other[1..], left, fits);
      }
    }
  }

  /** The greedy cut of `s` has the fewest groups among all cuts of `s` into fitting groups. */
  lemma GreedyIsFewest<T(!new)>(s: seq<T>, other: seq<seq<T>>, fits: seq<T> -> bool)
    requires Hereditary(fits) && SinglesFit(fits)
    requires forall k :: 0 <= k < |other| ==> fits(other[k])
    requires Concat(other) == s
    ensures |Greedy(s, fits)| <= |other|
  {
    GreedyIsMaximalPartition(s, fits);
    assert [] + Concat(Greedy(s, fits)) == s;
    MaximalIsFewest(Greedy(s, fits), other, [], fits);
  }

  // ------------------------------------------------- a loop that cuts greedily

  /** `closed` and the still `open` group are the greedy cut of what was read so far. */
  ghost predicate Cutting<T(!new)>(closed: seq<seq<T>>, open: seq<T>, read: seq<T>, fits: seq<T> -> bool) {
    Greedy(read, fits) == if open == [] then closed else closed + [open]
  }

  lemma CutStart<T(!new)>(fits: seq<T> -> bool)
    ensures Cutting([], [], [], fits)
  {
  }

  lemma CutDone<T(!new)>(closed: seq<seq<T>>, open: seq<T>, read: seq<T>, fits: seq<T> -> bool)
    requires Cutting(closed, open, read, fits)
    ensures Greedy(read, fits) == if open == [] then closed else closed + [open]
  {
  }

  lemma CutClose<T(!new)>(closed: seq<seq<T>>, open: seq<T>, read: seq<T>, fits: seq<T> -> bool)
    requires Cutting(closed, open, read, fits) && open != []
    ensures Cutting(closed + [open], [], read, fits)
  {
  }

  /** The next element goes into the open group if it fits there. */
  lemma CutGrow<T(!new)>(closed: seq<seq<T>>, open: seq<T>, read: seq<T>, x: T, fits: seq<T> -> bool)
    requires Cutting(closed, open, read, fits)
    requires open != [] ==> fits(open + [x])
    requires open == [] && closed != [] ==> !fits(closed[|closed| - 1] + [x])
    ensures Cutting(closed, open + [x], read + [x], fits)
  {
    assert (read + [x])[..|read|] == read;
    if open == [] {
      assert open + [x] == [x];
    } else {
      assert (closed + [open])[..|closed|] == closed;
    }
  }
}
