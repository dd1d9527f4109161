/** Resolving the dialects a dialect requires and merging them (voteit/meeting/dialects.py). */
module Dialects {
  import opened Collections

  // ------------------------------------------------------------- data model

  type Name = string

  type Field = string

  /** A dialect: its list fields, which are merged, and its other fields, with nothing for those
      that are not set. */
  datatype Dialect = Dialect(lists: map<Field, seq<string>>, others: map<Field, string>)

  type Registry = map<Name, Dialect>

  datatype Resolution = Resolved(names: seq<Name>) | Missing(name: Name) | Repeated(name: Name)

  const REQUIRES: Field := "requires"
  const NAME: Field := "name"

  function Requires(d: Dialect): seq<Name> {
    Items(d, REQUIRES)
  }

  function Items(d: Dialect, k: Field): seq<string> {
    if k in d.lists then d.lists[k] else []
  }

  // ------------------------------------------------------- what can be reached

  /** A way down from the root: which of the required dialects to take at every step. */
  type Path = seq<nat>

  function Follow(reg: Registry, root: Name, p: Path): Option<Name> {
    if p == [] then Some(root)
    else
      match Follow(reg, root, p[..|p| - 1])
      case None => None
      case Some(above) =>
        if above in reg && p[|p| - 1] < |Requires(reg[above])| then Some(Requires(reg[above])[p[|p| - 1]]) else None
  }

  ghost predicate Reachable(reg: Registry, root: Name, name: Name) {
    exists p: Path :: Follow(reg, root, p) == Some(name)
  }

  /** Whatever can be reached is registered, and there is one way to it only: no cycle, no dialect
      required twice. */
  ghost predicate IsTree(reg: Registry, root: Name) {
    && (forall p: Path :: Follow(reg, root, p).Some? ==> Follow(reg, root, p).value in reg)
    && (forall p: Path, q: Path ::
          Follow(reg, root, p).Some? && Follow(reg, root, p) == Follow(reg, root, q) ==> p == q)
  }

  predicate NoDuplicates<T(==)>(s: seq<T>) {
    forall i, j :: 0 <= i < j < |s| ==> s[i] != s[j]
  }

  /** Every dialect comes before those it requires. */
  ghost predicate Downwards(reg: Registry, names: seq<Name>)
    requires forall n <- names :: n in reg
  {
    forall i, r :: 0 <= i < |names| && r in Requires(reg[names[i]]) ==> exists j :: i < j < |names| && names[j] == r
  }

  /** Shorter ways come first, and of ways equally long the one that goes further up the first list
      of requirements on which they differ. */
  predicate Before(p: Path, q: Path) {
    if |p| != |q| then |p| < |q|
    else if p == [] then false
    else if p[..|p| - 1] != q[..|q| - 1] then Before(p[..|p| - 1], q[..|q| - 1])
    else p[|p| - 1] < q[|q| - 1]
  }

  /** Level by level, and within a level in the order in which they are required. */
  ghost predicate LevelByLevel(reg: Registry, root: Name, names: seq<Name>) {
    forall i, j :: 0 <= i < j < |names| ==> MetBefore(reg, root, names[i], names[j])
  }

  ghost predicate MetBefore(reg: Registry, root: Name, a: Name, b: Name) {
    forall p: Path, q: Path :: Follow(reg, root, p) == Some(a) && Follow(reg, root, q) == Some(b) ==> Before(p, q)
  }

  // ------------------------------------------------------------- the algorithm

  ghost predicate HasChild(all: seq<Path>, i: nat, k: nat)
    requires i < |all|
  {
    exists j :: i < j < |all| && all[j] == all[i] + [k]
  }

  ghost predicate HasParent(all: seq<Path>, n: nat, j: nat)
    requires n <= |all| && j < |all| && all[j] != []
  {
    exists i :: 0 <= i < n && all[i] == all[j][..|all[j]| - 1]
  }

  /** The state of the loop: every way met so far with the name at its end, the first `n` of them
      handled and the rest in the queue. */
  ghost predicate Walked(reg: Registry, root: Name, all: seq<Path>, names: seq<Name>, n: nat) {
    && n <= |all| == |names|
    && NoDuplicates(all)
    && NoDuplicates(names[..n])
    && (forall j :: 0 <= j < |all| ==> Follow(reg, root, all[j]) == Some(names[j]))
    && (forall i :: 0 <= i < n ==> names[i] in reg)
    && |all| > 0 && all[0] == []
    && (forall i, k :: 0 <= i < n && 0 <= k < |Requires(reg[names[i]])| ==> HasChild(all, i, k))
    && (forall j :: 0 <= j < |all| && all[j] != [] ==> HasParent(all, n, j))
  }

  lemma StartWalk(reg: Registry, root: Name)
    ensures Walked(reg, root, [[]], [root], 0)
  {
  }

  lemma Shift(names: seq<Name>, n: nat, below: seq<Name>)
    requires n < |names|
    ensures (names + below)[..n + 1] == names[..n] + [names[n]]
    ensures (names + below)[n + 1..] == names[n..][1..] + below
  {
  }

  lemma ManyChildren(p: Path, n: nat)
    ensures |Children(p, n)| == n
  {
  }

  /** Dialects with everything they require, the one asked for first. */
  method GetDependentDialects(reg: Registry, root: Name) returns (r: Resolution)
    ensures r.Resolved? <==> IsTree(reg, root)
    ensures r.Resolved? ==>
              && |r.names| > 0 && r.names[0] == root
              && NoDuplicates(r.names)
              && (forall name: Name :: name in r.names <==> Reachable(reg, root, name))
              && (forall name <- r.names :: name in reg)
              && Downwards(reg, r.names) && LevelByLevel(reg, root, r.names)
    ensures r.Missing? ==> Reachable(reg, root, r.name) && r.name !in reg
    ensures r.Repeated? ==> exists p: Path, q: Path ::
                p != q && Follow(reg, root, p) == Follow(reg, root, q) == Some(r.name)
  {
    hide *;
    var addedNames: set<Name> := {};
    var queue, results := [root], [];
    ghost var all: seq<Path>, names, n := [[]], [root], 0;
    StartWalk(reg, root);
    NoneBefore();
    while queue != []
      invariant n <= |names| == |all| && |names| > 0
      invariant Walked(reg, root, all, names, n) && InOrder(all)
      invariant results == names[..n] && queue == names[n..] && names[0] == root
      invariant addedNames == (set name <- results) && addedNames <= reg.Keys
      decreases |reg.Keys - addedNames|
    {
      var current := queue[0];
      queue := queue[1..];
      if current in addedNames {
        SeenTwice(reg, root, all, names, n);
        return Repeated(current);
      }
      if current !in reg {
        NotRegistered(reg, root, all, names, n);
        return Missing(current);
      }
      WalkOn(reg, root, all, names, n);
      WalkInOrder(reg, root, all, names, n, |Requires(reg[current])|);
      SmallerSet(reg.Keys - (addedNames + {current}), reg.Keys - addedNames, current);
      addedNames := addedNames + {current};
      Shift(names, n, Requires(reg[current]));
      results := results + [current];
      queue := queue + Requires(reg[current]);
      ManyChildren(all[n], |Requires(reg[current])|);
      all, names, n := all + Children(all[n], |Requires(reg[current])|), names + Requires(reg[current]), n + 1;
    }
    assert n == |all| && names[..n] == names;
    AllWalked(reg, root, all, names);
    AllInOrder(reg, root, all, names);
    return Resolved(results);
  }

  ghost predicate InOrder(all: seq<Path>) {
    forall i, j :: 0 <= i < j < |all| ==> Before(all[i], all[j])
  }

  lemma NoneBefore()
    ensures InOrder([[]])
  {
  }

  lemma LongerBefore(p: Path, q: Path, k: nat, l: nat)
    requires Before(p, q) || (p == q && k < l)
    ensures Before(p + [k], q + [l])
  {
    assert (p + [k])[..|p|] == p && (q + [l])[..|q|] == q;
    NotBeforeItself(p);
  }

  lemma {:induction false} NotBeforeItself(p: Path)
    ensures !Before(p, p)
  {
  }

  /** What is put at the end of the queue comes after everything met before. */
  lemma WalkInOrder(reg: Registry, root: Name, all: seq<Path>, names: seq<Name>, n: nat, m: nat)
    requires Walked(reg, root, all, names, n) && n < |all| && InOrder(all)
    ensures InOrder(all + Children(all[n], m))
  {
    hide Follow, HasChild, HasParent, Before, Requires, NoDuplicates;
    var children := Children(all[n], m);
    forall j, k | 0 <= j < |all| && 0 <= k < m ensures Before(all[j], children[k]) {
      ParentIsEarlier(all, n, j, k);
    }
    forall k, l | 0 <= k < l < m ensures Before(children[k], children[l]) {
      LongerBefore(all[n], all[n], k, l);
    }
  }

  lemma ParentIsEarlier(all: seq<Path>, n: nat, j: nat, k: nat)
    requires n < |all| && j < |all| && InOrder(all) && (all[j] != [] ==> HasParent(all, n, j))
    ensures Before(all[j], all[n] + [k])
  {
    hide Before;
    if all[j] == [] {
      RootBefore(all[n] + [k]);
    } else {
      var i :| 0 <= i < n && all[i] == all[j][..|all[j]| - 1];
      assert all[j] == all[i] + [all[j][|all[j]| - 1]];
      LongerBefore(all[i], all[n], all[j][|all[j]| - 1], k);
    }
  }

  lemma RootBefore(p: Path)
    requires p != []
    ensures Before([], p)
  {
  }

  lemma AllInOrder(reg: Registry, root: Name, all: seq<Path>, names: seq<Name>)
    requires |all| == |names| > 0 && Walked(reg, root, all, names, |all|) && InOrder(all)
    ensures LevelByLevel(reg, root, names)
  {
    hide Follow, Walked, Before, NoDuplicates;
    AllNamed(reg, root, all, names);
    AllIsTree(reg, root, all, names);
    forall i, j | 0 <= i < j < |names| ensures MetBefore(reg, root, names[i], names[j]) {
      assert Before(all[i], all[j]);
      forall p: Path, q: Path | Follow(reg, root, p) == Some(names[i]) && Follow(reg, root, q) == Some(names[j])
        ensures Before(p, q)
      {
        assert Follow(reg, root, all[i]) == Follow(reg, root, p);
        assert Follow(reg, root, all[j]) == Follow(reg, root, q);
        assert p == all[i] && q == all[j];
      }
    }
  }

  lemma SmallerSet<T>(a: set<T>, b: set<T>, x: T)
    requires a <= b && x in b && x !in a
    ensures |a| < |b|
  {
    assert |b - a| + |a| == |b| by {
      assert (b - a) + a == b && (b - a) * a == {};
    }
    assert x in b - a;
  }

  function Children(p: Path, n: nat): seq<Path> {
    seq(n, k => p + [k])
  }

  lemma SeenTwice(reg: Registry, root: Name, all: seq<Path>, names: seq<Name>, n: nat)
    requires Walked(reg, root, all, names, n) && n < |names| && names[n] in names[..n]
    ensures !IsTree(reg, root)
    ensures exists p: Path, q: Path :: p != q && Follow(reg, root, p) == Follow(reg, root, q) == Some(names[n])
  {
    hide Follow;
    var i :| 0 <= i < n && names[..n][i] == names[n];
    assert all[i] != all[n];
    assert Follow(reg, root, all[i]) == Follow(reg, root, all[n]) == Some(names[n]);
  }

  lemma NotRegistered(reg: Registry, root: Name, all: seq<Path>, names: seq<Name>, n: nat)
    requires Walked(reg, root, all, names, n) && n < |names| && names[n] !in reg
    ensures !IsTree(reg, root) && Reachable(reg, root, names[n])
  {
    hide Follow;
    assert Follow(reg, root, all[n]) == Some(names[n]);
  }

  /** Handling the next name puts those it requires at the end of the queue. */
  lemma WalkOn(reg: Registry, root: Name, all: seq<Path>, names: seq<Name>, n: nat)
    requires Walked(reg, root, all, names, n) && n < |names| && names[n] !in names[..n] && names[n] in reg
    ensures var below := Requires(reg[names[n]]);
            Walked(reg, root, all + Children(all[n], |below|), names + below, n + 1)
  {
    hide Follow, HasChild, HasParent, NoDuplicates;
    var below := Requires(reg[names[n]]);
    var more, called := all + Children(all[n], |below|), names + below;
    NewWays(all, n, |below|);
    NewNames(reg, root, all, names, n);
    OneMore(names[..n], names[n]);
    assert called[..n + 1] == names[..n] + [names[n]];
    forall i, k | 0 <= i < n + 1 && 0 <= k < |Requires(reg[called[i]])| ensures HasChild(more, i, k) {
      ChildrenThere(all, n, |below|, i, k);
    }
    forall j | 0 <= j < |more| && more[j] != [] ensures HasParent(more, n + 1, j) {
      ParentThere(all, n, |below|, j);
    }
  }

  lemma OneMore(names: seq<Name>, name: Name)
    requires NoDuplicates(names) && name !in names
    ensures NoDuplicates(names + [name])
  {
  }

  lemma NewNames(reg: Registry, root: Name, all: seq<Path>, names: seq<Name>, n: nat)
    requires n < |all| == |names| && names[n] in reg
    requires forall j :: 0 <= j < |all| ==> Follow(reg, root, all[j]) == Some(names[j])
    ensures var below := Requires(reg[names[n]]);
            forall j :: 0 <= j < |all| + |below| ==>
              Follow(reg, root, (all + Children(all[n], |below|))[j]) == Some((names + below)[j])
  {
    hide Follow;
    var below := Requires(reg[names[n]]);
    forall j | 0 <= j < |all| + |below|
      ensures Follow(reg, root, (all + Children(all[n], |below|))[j]) == Some((names + below)[j])
    {
      if j >= |all| {
        OneFurther(reg, root, all[n], j - |all|);
      }
    }
  }

  lemma ChildrenThere(all: seq<Path>, n: nat, m: nat, i: nat, k: nat)
    requires i <= n < |all|
    requires if i < n then HasChild(all, i, k) else k < m
    ensures HasChild(all + Children(all[n], m), i, k)
  {
    var more := all + Children(all[n], m);
    if i < n {
      var j :| i < j < |all| && all[j] == all[i] + [k];
      assert more[j] == more[i] + [k];
    } else {
      assert more[|all| + k] == more[i] + [k];
    }
  }

  lemma ParentThere(all: seq<Path>, n: nat, m: nat, j: nat)
    requires n < |all| && j < |all| + m
    requires j < |all| && all[j] != [] ==> HasParent(all, n, j)
    ensures var more := all + Children(all[n], m);
            more[j] != [] ==> HasParent(more, n + 1, j)
  {
    var more := all + Children(all[n], m);
    if j < |all| {
      if all[j] != [] {
        var i :| 0 <= i < n && all[i] == all[j][..|all[j]| - 1];
        assert more[i] == more[j][..|more[j]| - 1];
      }
    } else {
      assert more[n] == more[j][..|more[j]| - 1];
    }
  }

  lemma ParentBefore(all: seq<Path>, n: nat, j: nat)
    requires n < |all| && NoDuplicates(all) && j < |all| && all[j] != [] && HasParent(all, n, j)
    ensures all[j][..|all[j]| - 1] != all[n]
  {
    var i :| 0 <= i < n && all[i] == all[j][..|all[j]| - 1];
    assert all[i] != all[n];
  }

  /** The ways one further than one in the queue are new. */
  lemma NewWays(all: seq<Path>, n: nat, m: nat)
    requires n < |all| && NoDuplicates(all)
    requires forall j :: 0 <= j < |all| && all[j] != [] ==> HasParent(all, n, j)
    ensures NoDuplicates(all + Children(all[n], m))
  {
    var children := Children(all[n], m);
    forall j, k | 0 <= j < |all| && 0 <= k < m ensures all[j] != children[k] {
      assert children[k][..|children[k]| - 1] == all[n];
      if all[j] != [] {
        ParentBefore(all, n, j);
      }
    }
    forall k, l | 0 <= k < l < m ensures children[k] != children[l] {
      assert children[k][|all[n]|] == k && children[l][|all[n]|] == l;
    }
  }

  lemma OneFurther(reg: Registry, root: Name, p: Path, k: nat)
    requires var at := Follow(reg, root, p); at.Some? && at.value in reg && k < |Requires(reg[at.value])|
    ensures Follow(reg, root, p + [k]) == Some(Requires(reg[Follow(reg, root, p).value])[k])
  {
    assert (p + [k])[..|p|] == p;
  }

  lemma OneBack(reg: Registry, root: Name, p: Path)
    requires p != [] && Follow(reg, root, p).Some?
    ensures var above := Follow(reg, root, p[..|p| - 1]);
            above.Some? && above.value in reg && p[|p| - 1] < |Requires(reg[above.value])|
  {
  }

  lemma Named(reg: Registry, root: Name, all: seq<Path>, names: seq<Name>, j: nat)
    requires Walked(reg, root, all, names, |all|) && j < |all|
    ensures Follow(reg, root, all[j]) == Some(names[j]) && names[j] in reg
    ensures all[0] == []
  {
    hide Follow, HasChild, HasParent;
  }

  lemma StepDown(reg: Registry, root: Name, all: seq<Path>, names: seq<Name>, j: nat, k: nat) returns (c: nat)
    requires Walked(reg, root, all, names, |all|) && j < |all| && names[j] in reg && k < |Requires(reg[names[j]])|
    ensures j < c < |all| && all[c] == all[j] + [k]
  {
    hide Follow, HasParent, NoDuplicates;
    assert HasChild(all, j, k);
    c :| j < c < |all| && all[c] == all[j] + [k];
  }

  /** When the queue is empty every way there is has been met. */
  lemma {:induction false} EveryWay(reg: Registry, root: Name, all: seq<Path>, names: seq<Name>, p: Path)
    returns (i: nat)
    requires |all| == |names| > 0 && Walked(reg, root, all, names, |all|) && Follow(reg, root, p).Some?
    ensures i < |all| && all[i] == p
    decreases |p|
  {
    hide *;
    if p == [] {
      Named(reg, root, all, names, 0);
      i := 0;
    } else {
      OneBack(reg, root, p);
      var up, k := p[..|p| - 1], p[|p| - 1];
      var j := EveryWay(reg, root, all, names, up);
      Named(reg, root, all, names, j);
      i := StepDown(reg, root, all, names, j, k);
      assert p == up + [k];
    }
  }

  lemma AllNamed(reg: Registry, root: Name, all: seq<Path>, names: seq<Name>)
    requires |all| == |names| && Walked(reg, root, all, names, |all|)
    ensures NoDuplicates(names)
    ensures forall j :: 0 <= j < |names| ==> Follow(reg, root, all[j]) == Some(names[j]) && names[j] in reg
  {
    hide Follow, NoDuplicates, HasChild, HasParent;
    assert names[..|all|] == names;
  }

  /** All ways are met, so each name is met on one way only. */
  lemma AllIsTree(reg: Registry, root: Name, all: seq<Path>, names: seq<Name>)
    requires |all| == |names| > 0 && Walked(reg, root, all, names, |all|)
    ensures IsTree(reg, root)
    ensures forall name: Name :: name in names <==> Reachable(reg, root, name)
  {
    hide Follow, Walked;
    AllNamed(reg, root, all, names);
    forall p: Path | Follow(reg, root, p).Some?
      ensures Follow(reg, root, p).value in reg && Follow(reg, root, p).value in names
    {
      var i := EveryWay(reg, root, all, names, p);
      assert names[i] in names;
    }
    forall p: Path, q: Path | Follow(reg, root, p).Some? && Follow(reg, root, p) == Follow(reg, root, q)
      ensures p == q
    {
      var i := EveryWay(reg, root, all, names, p);
      var j := EveryWay(reg, root, all, names, q);
      assert names[i] == names[j];
    }
    forall name: Name | name in names ensures Reachable(reg, root, name) {
      var i :| 0 <= i < |names| && names[i] == name;
      assert Follow(reg, root, all[i]) == Some(name);
    }
  }

  lemma AllWalked(reg: Registry, root: Name, all: seq<Path>, names: seq<Name>)
    requires |all| == |names| > 0 && Walked(reg, root, all, names, |all|)
    ensures IsTree(reg, root)
    ensures NoDuplicates(names) && (forall name <- names :: name in reg) && Downwards(reg, names)
    ensures forall name: Name :: name in names <==> Reachable(reg, root, name)
  {
    hide Follow, Walked, IsTree, NoDuplicates, Reachable;
    AllNamed(reg, root, all, names);
    AllIsTree(reg, root, all, names);
    forall i, r | 0 <= i < |names| && r in Requires(reg[names[i]])
      ensures exists j :: i < j < |names| && names[j] == r
    {
      var k :| 0 <= k < |Requires(reg[names[i]])| && Requires(reg[names[i]])[k] == r;
      var j := StepDown(reg, root, all, names, i, k);
      OneFurther(reg, root, all[i], k);
      assert Follow(reg, root, all[j]) == Some(names[j]);
    }
  }

  // ------------------------------------------------------------------ merging

  /** The items of a list, each where it is first met. */
  function FirstMet(items: seq<string>): seq<string> {
    if items == [] then [] else
      var before := FirstMet(items[..|items| - 1]);
      if items[|items| - 1] in before then before else before + [items[|items| - 1]]
  }

  lemma {:induction false} FirstMetIsExact(items: seq<string>)
    ensures NoDuplicates(FirstMet(items))
    ensures forall x: string :: x in FirstMet(items) <==> x in items
  {
    if items != [] {
      FirstMetIsExact(items[..|items| - 1]);
      assert items == items[..|items| - 1] + [items[|items| - 1]];
    }
  }

  /** The items of a field in all dialects, those of the last one, furthest from the root, first. */
  function Gathered(ds: seq<Dialect>, k: Field): seq<string> {
    if ds == [] then [] else Gathered(ds[1..], k) + Items(ds[0], k)
  }

  /** The other fields: what is set nearest to the root counts. */
  function Nearest(ds: seq<Dialect>): map<Field, string> {
    if ds == [] then map[] else Nearest(ds[1..]) + ds[0].others
  }

  lemma FirstMetSnoc(items: seq<string>, x: string)
    ensures FirstMet(items + [x]) == if x in FirstMet(items) then FirstMet(items) else FirstMet(items) + [x]
  {
    assert (items + [x])[..|items|] == items;
  }

  /** Merges the dialects in reverse order, so that the one asked for comes last and wins. */
  method MergeDialects(ds: seq<Dialect>, root: Name) returns (data: Dialect)
    ensures forall k: Field :: Items(data, k) == FirstMet(Gathered(ds, k))
    ensures data.others == Nearest(ds)[NAME := root]
  {
    data := Dialect(map[], map[]);
    var i := |ds|;
    while i > 0
      invariant 0 <= i <= |ds|
      invariant forall k: Field :: Items(data, k) == FirstMet(Gathered(ds[i..], k))
      invariant data.others == Nearest(ds[i..])
    {
      i := i - 1;
      assert ds[i..][1..] == ds[i + 1..];
      var lists := MergeLists(data.lists, ds[i].lists);
      ghost var before := data;
      data := Dialect(lists, data.others + ds[i].others);
      forall k: Field ensures Items(data, k) == FirstMet(Gathered(ds[i..], k)) {
        ExtendedIs(Gathered(ds[i + 1..], k), Items(ds[i], k));
      }
    }
    assert ds[0..] == ds;
    data := data.(others := data.others[NAME := root]);
  }

  /** Appending the items that are not there yet, one after the other. */
  function Extended(list: seq<string>, items: seq<string>): seq<string> {
    if items == [] then list else
      var before := Extended(list, items[..|items| - 1]);
      if items[|items| - 1] in before then before else before + [items[|items| - 1]]
  }

  lemma {:induction false} ExtendedIs(gathered: seq<string>, items: seq<string>)
    ensures Extended(FirstMet(gathered), items) == FirstMet(gathered + items)
  {
    if items == [] {
      assert gathered + items == gathered;
    } else {
      var init, x := items[..|items| - 1], items[|items| - 1];
      ExtendedIs(gathered, init);
      assert gathered + items == (gathered + init) + [x];
      FirstMetSnoc(gathered + init, x);
    }
  }

  method Extend(list: seq<string>, items: seq<string>) returns (extended: seq<string>)
    ensures extended == Extended(list, items)
  {
    extended := list;
    for i := 0 to |items|
      invariant extended == Extended(list, items[..i])
    {
      assert items[..i + 1][..i] == items[..i];
      if items[i] !in extended {
        extended := extended + [items[i]];
      }
    }
    assert items[..|items|] == items;
  }

  lemma NothingExtends(list: seq<string>)
    ensures Extended(list, []) == list
  {
  }

  method MergeLists(lists: map<Field, seq<string>>, more: map<Field, seq<string>>)
    returns (merged: map<Field, seq<string>>)
    ensures forall k: Field :: Items(Dialect(merged, map[]), k) ==
                               Extended(Items(Dialect(lists, map[]), k), Items(Dialect(more, map[]), k))
  {
    hide Extended;
    merged := lists;
    var rest := more.Keys;
    while rest != {}
      invariant rest <= more.Keys
      invariant forall k: Field :: Items(Dialect(merged, map[]), k) ==
                  if k in more && k !in rest
                  then Extended(Items(Dialect(lists, map[]), k), more[k]) else Items(Dialect(lists, map[]), k)
      decreases rest
    {
      var k := AnyOf(rest);
      rest := rest - {k};
      var items := more[k];
      if items == [] {
        NothingExtends(Items(Dialect(lists, map[]), k));
      } else {
        var list := if k in merged then merged[k] else [];
        list := Extend(list, items);
        merged := merged[k := list];
      }
    }
    forall k: Field | k !in more
      ensures Extended(Items(Dialect(lists, map[]), k), []) == Items(Dialect(lists, map[]), k)
    {
      NothingExtends(Items(Dialect(lists, map[]), k));
    }
  }

  function Dialects(reg: Registry, names: seq<Name>): seq<Dialect>
    requires forall n <- names :: n in reg
  {
    seq(|names|, i requires 0 <= i < |names| => assert names[i] in names; reg[names[i]])
  }

  method GetMergedHandler(reg: Registry, root: Name) returns (r: Option<Dialect>, ghost names: seq<Name>)
    ensures r.Some? <==> IsTree(reg, root)
    ensures r.Some? ==>
              && (forall n: Name :: n in names <==> Reachable(reg, root, n))
              && (forall n <- names :: n in reg)
              && |names| > 0 && names[0] == root && LevelByLevel(reg, root, names)
              && (forall k: Field :: Items(r.value, k) == FirstMet(Gathered(Dialects(reg, names), k)))
              && r.value.others == Nearest(Dialects(reg, names))[NAME := root]
  {
    hide LevelByLevel;
    var resolved := GetDependentDialects(reg, root);
    if !resolved.Resolved? {
      return None, [];
    }
    names := resolved.names;
    var data := MergeDialects(Dialects(reg, resolved.names), root);
    r := Some(data);
  }

  lemma {:induction false} GatheredIsUnion(ds: seq<Dialect>, k: Field, x: string)
    ensures x in Gathered(ds, k) <==> exists d <- ds :: x in Items(d, k)
  {
    if ds != [] {
      GatheredIsUnion(ds[1..], k, x);
      assert ds == [ds[0]] + ds[1..];
    }
  }

  /** A merged list field has no duplicates and holds exactly the items some dialect has. */
  lemma MergedListIsUnion(ds: seq<Dialect>, k: Field, x: string)
    ensures NoDuplicates(FirstMet(Gathered(ds, k)))
    ensures x in FirstMet(Gathered(ds, k)) <==> exists d <- ds :: x in Items(d, k)
  {
    FirstMetIsExact(Gathered(ds, k));
    GatheredIsUnion(ds, k, x);
  }

  /** Where an item is in a list for the first time. */
  function First(items: seq<string>, x: string): (i: nat)
    ensures i <= |items|
    ensures i < |items| <==> x in items
  {
    if items == [] then 0
    else if x in items[..|items| - 1] then First(items[..|items| - 1], x)
    else if items[|items| - 1] == x then |items| - 1 else |items|
  }

  lemma {:induction false} ExtendedInOrder(list: seq<string>, items: seq<string>)
    ensures list <= Extended(list, items)
    ensures forall i, j :: |list| <= i < j < |Extended(list, items)| ==>
              First(items, Extended(list, items)[i]) < First(items, Extended(list, items)[j])
    ensures forall i :: |list| <= i < |Extended(list, items)| ==> Extended(list, items)[i] in items
  {
    if items != [] {
      var init, x := items[..|items| - 1], items[|items| - 1];
      assert items == init + [x];
      ExtendedInOrder(list, init);
      var before := Extended(list, init);
      forall i | |list| <= i < |before| ensures First(items, before[i]) == First(init, before[i]) < |init| {
        assert before[i] in init;
      }
      if x !in before {
        ExtendedHasAll(list, init, x);
      }
    }
  }

  lemma {:induction false} ExtendedHasAll(list: seq<string>, items: seq<string>, x: string)
    ensures x in Extended(list, items) <==> x in list || x in items
  {
    if items != [] {
      ExtendedHasAll(list, items[..|items| - 1], x);
      assert items == items[..|items| - 1] + [items[|items| - 1]];
    }
  }

  /** What a dialect further away has stays first and as it is; what one nearer to the root adds
      comes after it, in its own order. */
  lemma MergedInOrder(ds: seq<Dialect>, k: Field)
    requires ds != []
    ensures var below, all := FirstMet(Gathered(ds[1..], k)), FirstMet(Gathered(ds, k));
            && below <= all
            && (forall i :: |below| <= i < |all| ==> all[i] in Items(ds[0], k))
            && forall i, j :: |below| <= i < j < |all| ==>
                 First(Items(ds[0], k), all[i]) < First(Items(ds[0], k), all[j])
  {
    hide Extended, FirstMet, First;
    var below, items := Gathered(ds[1..], k), Items(ds[0], k);
    ExtendedIs(below, items);
    ExtendedInOrder(FirstMet(below), items);
  }

  /** Any other field has the value of the first dialect, counted from the root, that sets it. */
  lemma {:induction false} MergedFieldIsNearest(ds: seq<Dialect>, k: Field)
    ensures k in Nearest(ds) <==> exists d <- ds :: k in d.others
    ensures forall i :: 0 <= i < |ds| && k in ds[i].others && (forall j :: 0 <= j < i ==> k !in ds[j].others) ==>
              k in Nearest(ds) && Nearest(ds)[k] == ds[i].others[k]
  {
    if ds != [] {
      MergedFieldIsNearest(ds[1..], k);
      assert ds == [ds[0]] + ds[1..];
      forall i | 0 <= i < |ds| && k in ds[i].others && (forall j :: 0 <= j < i ==> k !in ds[j].others)
        ensures k in Nearest(ds) && Nearest(ds)[k] == ds[i].others[k]
      {
        if i > 0 {
          assert ds[1..][i - 1] == ds[i];
          assert forall j :: 0 <= j < i - 1 ==> ds[1..][j] == ds[j + 1];
        }
      }
    }
  }
}
