/** Which collectors run for a channel, and in which order (voteit/messaging/registry.py). */
module CollectorRegistry {
  import opened Collections

  // ------------------------------------------------------------- data model

  datatype Collector = Collector(name: string, order: int, channels: seq<string>)

  type Index = map<string, seq<Collector>>

  // ------------------------------------------------------------- the order

  /** Names compare character by character. */
  predicate NameLeq(a: string, b: string) {
    a == [] || (b != [] && (a[0] < b[0] || (a[0] == b[0] && NameLeq(a[1..], b[1..]))))
  }

  predicate Leq(a: Collector, b: Collector) {
    a.order < b.order || (a.order == b.order && NameLeq(a.name, b.name))
  }

  lemma {:induction false} NameTotal(a: string, b: string)
    ensures NameLeq(a, b) || NameLeq(b, a)
    ensures NameLeq(a, b) && NameLeq(b, a) ==> a == b
  {
    if a != [] && b != [] {
      NameTotal(a[1..], b[1..]);
      assert a == [a[0]] + a[1..] && b == [b[0]] + b[1..];
    }
  }

  lemma {:induction false} NameTransitive(a: string, b: string, c: string)
    requires NameLeq(a, b) && NameLeq(b, c)
    ensures NameLeq(a, c)
  {
    if a != [] && b != [] && c != [] && a[0] == b[0] == c[0] {
      NameTransitive(a[1..], b[1..], c[1..]);
    }
  }

  lemma LeqTransitive(a: Collector, b: Collector, c: Collector)
    requires Leq(a, b) && Leq(b, c)
    ensures Leq(a, c)
  {
    if a.order == b.order == c.order {
      NameTransitive(a.name, b.name, c.name);
    }
  }

  predicate IsSorted(s: seq<Collector>) {
    forall i, j :: 0 <= i < j < |s| ==> Leq(s[i], s[j])
  }

  /** Puts a collector behind those that are not after it. */
  function Insert(s: seq<Collector>, c: Collector): seq<Collector> {
    if s == [] || Leq(s[|s| - 1], c) then s + [c] else Insert(s[..|s| - 1], c) + [s[|s| - 1]]
  }

  function Sort(s: seq<Collector>): seq<Collector> {
    if s == [] then [] else Insert(Sort(s[..|s| - 1]), s[|s| - 1])
  }

  lemma {:induction false} InsertSorts(s: seq<Collector>, c: Collector)
    requires IsSorted(s)
    ensures IsSorted(Insert(s, c)) && multiset(Insert(s, c)) == multiset(s) + multiset{c}
  {
    hide Leq;
    if s != [] {
      var init, last := s[..|s| - 1], s[|s| - 1];
      assert s == init + [last];
      if Leq(last, c) {
        forall i | 0 <= i < |s| ensures Leq(s[i], c) {
          if i < |s| - 1 {
            LeqTransitive(s[i], last, c);
          }
        }
      } else {
        InsertSorts(init, c);
        LeqTotal(last, c);
        forall x | x in Insert(init, c) ensures Leq(x, last) {
          assert x in multiset(Insert(init, c));
        }
      }
    }
  }

  lemma LeqTotal(a: Collector, b: Collector)
    ensures Leq(a, b) || Leq(b, a)
    ensures Leq(a, b) && Leq(b, a) ==> a.order == b.order && a.name == b.name
  {
    NameTotal(a.name, b.name);
  }

  lemma {:induction false} SortSorts(s: seq<Collector>)
    ensures IsSorted(Sort(s)) && multiset(Sort(s)) == multiset(s)
  {
    if s != [] {
      SortSorts(s[..|s| - 1]);
      InsertSorts(Sort(s[..|s| - 1]), s[|s| - 1]);
      assert s == s[..|s| - 1] + [s[|s| - 1]];
    }
  }

  /** A name stands for one collector. */
  ghost predicate OnePerName(s: seq<Collector>) {
    forall a <- s, b <- s :: a.name == b.name ==> a == b
  }

  lemma LastsAgree(a: seq<Collector>, b: seq<Collector>)
    requires IsSorted(a) && IsSorted(b) && multiset(a) == multiset(b) && OnePerName(a)
    requires a != [] && b != []
    ensures a[|a| - 1] == b[|b| - 1]
  {
    hide Leq;
    var last, other := a[|a| - 1], b[|b| - 1];
    var i := FindSame(b, a, other);
    var j := FindSame(a, b, last);
    LeqTotal(last, other);
    assert a[i] in a && last in a;
  }

  /** Sorted, the same collectors are the same list. */
  lemma {:induction false} SortedIsUnique(a: seq<Collector>, b: seq<Collector>)
    requires IsSorted(a) && IsSorted(b) && multiset(a) == multiset(b) && OnePerName(a)
    ensures a == b
  {
    hide Leq;
    SameSize(a, b);
    if a != [] {
      LastsAgree(a, b);
      DropLast(a);
      DropLast(b);
      assert forall c <- a[..|a| - 1] :: c in a;
      SortedIsUnique(a[..|a| - 1], b[..|b| - 1]);
      assert a == a[..|a| - 1] + [a[|a| - 1]] && b == b[..|b| - 1] + [b[|b| - 1]];
    }
  }

  // --------------------------------------------------------- who runs, stated

  /** A collector once for every time it names the channel. */
  function Times(c: Collector, targets: seq<string>, channel: string): seq<Collector> {
    if targets == [] then [] else
      Times(c, targets[..|targets| - 1], channel) + if targets[|targets| - 1] == channel then [c] else []
  }

  function Naming(data: seq<Collector>, channel: string): seq<Collector> {
    if data == [] then [] else
      Naming(data[..|data| - 1], channel) + Times(data[|data| - 1], data[|data| - 1].channels, channel)
  }

  /** The collectors of a channel, by order and name. */
  function CollectorsOf(data: seq<Collector>, channel: string): seq<Collector> {
    Sort(Naming(data, channel))
  }

  lemma {:induction false} NamingWithout(data: seq<Collector>, channel: string, i: nat)
    requires i < |data|
    ensures multiset(Naming(data, channel)) ==
            multiset(Naming(data[..i] + data[i + 1..], channel)) + multiset(Times(data[i], data[i].channels, channel))
  {
    hide Times, Naming;
    var init, last := data[..|data| - 1], data[|data| - 1];
    assert data == init + [last];
    NamingSnoc(init, last, channel);
    if i == |data| - 1 {
      assert data[..i] + data[i + 1..] == init;
    } else {
      NamingWithout(init, channel, i);
      var less := init[..i] + init[i + 1..];
      assert data[..i] + data[i + 1..] == less + [last];
      NamingSnoc(less, last, channel);
    }
  }

  lemma NamingSnoc(data: seq<Collector>, c: Collector, channel: string)
    ensures Naming(data + [c], channel) == Naming(data, channel) + Times(c, c.channels, channel)
  {
    assert (data + [c])[..|data|] == data;
  }

  lemma {:induction false} NamingOfSame(data: seq<Collector>, other: seq<Collector>, channel: string)
    requires multiset(data) == multiset(other)
    ensures multiset(Naming(data, channel)) == multiset(Naming(other, channel))
  {
    hide Times;
    SameSize(data, other);
    if data != [] {
      var n := |data| - 1;
      var i := FindSame(data, other, data[n]);
      DropLast(data);
      TakeOut(other, i);
      NamingOfSame(data[..n], other[..i] + other[i + 1..], channel);
      NamingWithout(other, channel, i);
    }
  }

  lemma {:induction false} NamingIsPart(data: seq<Collector>, channel: string)
    ensures forall c <- Naming(data, channel) :: c in data
  {
    if data != [] {
      var last := data[|data| - 1];
      NamingIsPart(data[..|data| - 1], channel);
      TimesIsOne(last, last.channels, channel);
    }
  }

  lemma {:induction false} TimesIsOne(c: Collector, targets: seq<string>, channel: string)
    ensures forall d <- Times(c, targets, channel) :: d == c
  {
    if targets != [] {
      TimesIsOne(c, targets[..|targets| - 1], channel);
    }
  }

  /** The collectors of a channel and their order do not depend on the order in which they were
      registered. */
  lemma ImportOrderDoesNotMatter(data: seq<Collector>, other: seq<Collector>, channel: string)
    requires multiset(data) == multiset(other) && OnePerName(data)
    ensures CollectorsOf(data, channel) == CollectorsOf(other, channel)
  {
    hide Naming, Sort;
    NamingOfSame(data, other, channel);
    SortSorts(Naming(data, channel));
    SortSorts(Naming(other, channel));
    NamingIsPart(data, channel);
    var sorted := CollectorsOf(data, channel);
    forall c <- sorted ensures c in data {
      assert c in multiset(sorted);
      assert c in multiset(Naming(data, channel));
    }
    SortedIsUnique(sorted, CollectorsOf(other, channel));
  }

  lemma {:induction false} TimesAre(c: Collector, targets: seq<string>, channel: string)
    ensures multiset(Times(c, targets, channel))[c] == multiset(targets)[channel]
  {
    if targets != [] {
      TimesAre(c, targets[..|targets| - 1], channel);
      assert targets == targets[..|targets| - 1] + [targets[|targets| - 1]];
    }
  }

  lemma {:induction false} NamingAre(data: seq<Collector>, channel: string, c: Collector)
    requires forall i, j :: 0 <= i < j < |data| ==> data[i] != data[j]
    ensures multiset(Naming(data, channel))[c] == if c in data then multiset(c.channels)[channel] else 0
  {
    hide Times;
    if data != [] {
      var init, last := data[..|data| - 1], data[|data| - 1];
      assert data == init + [last];
      NamingAre(init, channel, c);
      TimesAre(last, last.channels, channel);
      TimesIsOne(last, last.channels, channel);
      if c != last {
        assert c !in Times(last, last.channels, channel);
      }
    }
  }

  /** The collectors of a channel are those registered that name it, as often as they do, and they
      come by their order and then by their name. */
  lemma CollectorsAreExact(data: seq<Collector>, channel: string)
    requires forall i, j :: 0 <= i < j < |data| ==> data[i] != data[j]
    ensures var found := CollectorsOf(data, channel);
            && (forall c: Collector ::
                  multiset(found)[c] == if c in data then multiset(c.channels)[channel] else 0)
            && (forall c: Collector :: c in found <==> c in data && channel in c.channels)
            && forall i, j :: 0 <= i < j < |found| ==>
                 found[i].order < found[j].order ||
                 (found[i].order == found[j].order && NameLeq(found[i].name, found[j].name))
  {
    hide Sort, Naming;
    var found := CollectorsOf(data, channel);
    SortSorts(Naming(data, channel));
    forall c: Collector
      ensures multiset(found)[c] == if c in data then multiset(c.channels)[channel] else 0
      ensures c in found <==> c in data && channel in c.channels
    {
      NamingAre(data, channel, c);
      assert c in found <==> c in multiset(found);
      assert channel in c.channels <==> channel in multiset(c.channels);
    }
  }

  // ------------------------------------------------------------- the registry

  function Listed(index: Index, channel: string): seq<Collector> {
    if channel in index then index[channel] else []
  }

  lemma TimesSnoc(c: Collector, targets: seq<string>, k: nat, channel: string)
    requires k < |targets|
    ensures Times(c, targets[..k + 1], channel) ==
            Times(c, targets[..k], channel) + if targets[k] == channel then [c] else []
  {
    assert targets[..k + 1][..k] == targets[..k];
  }

  method BuildIndex(data: seq<Collector>) returns (index: Index)
    ensures forall channel: string :: Listed(index, channel) == CollectorsOf(data, channel)
  {
    hide Sort, Times;
    index := map[];
    for i := 0 to |data|
      invariant forall channel: string :: Listed(index, channel) == Naming(data[..i], channel)
    {
      assert data[..i + 1][..i] == data[..i];
      index := AddTargets(index, data[i]);
    }
    assert data[..|data|] == data;
    var rest := index.Keys;
    while rest != {}
      invariant rest <= index.Keys
      invariant forall channel: string ::
        Listed(index, channel) ==
        if channel in rest || channel !in index then Naming(data, channel) else CollectorsOf(data, channel)
      decreases rest
    {
      var channel := AnyOf(rest);
      var entries := SortEntries(index[channel]);
      index := index[channel := entries];
      rest := rest - {channel};
    }
    forall channel: string ensures Listed(index, channel) == CollectorsOf(data, channel) {
      if channel !in index {
        NoneSorted();
      }
    }
  }

  lemma NoneSorted()
    ensures Sort([]) == []
  {
  }

  method AddTargets(index: Index, c: Collector) returns (more: Index)
    ensures forall channel: string :: Listed(more, channel) == Listed(index, channel) + Times(c, c.channels, channel)
  {
    hide Times;
    more := index;
    forall channel: string ensures Times(c, c.channels[..0], channel) == [] {
      NoTargets(c, channel);
      assert c.channels[..0] == [];
    }
    for k := 0 to |c.channels|
      invariant forall channel: string ::
        Listed(more, channel) == Listed(index, channel) + Times(c, c.channels[..k], channel)
    {
      var target := c.channels[k];
      more := more[target := (if target in more then more[target] else []) + [c]];
      forall channel: string
        ensures Listed(more, channel) == Listed(index, channel) + Times(c, c.channels[..k + 1], channel)
      {
        TimesSnoc(c, c.channels, k, channel);
      }
    }
    assert c.channels[..|c.channels|] == c.channels;
  }

  lemma NoTargets(c: Collector, channel: string)
    ensures Times(c, [], channel) == []
  {
  }

  /** The sort of the standard library, by order and name. */
  method SortEntries(entries: seq<Collector>) returns (sorted: seq<Collector>)
    ensures sorted == Sort(entries)
  {
    hide Insert;
    sorted := [];
    for i := 0 to |entries|
      invariant sorted == Sort(entries[..i])
    {
      assert entries[..i + 1][..i] == entries[..i];
      sorted := Insert(sorted, entries[i]);
    }
    assert entries[..|entries|] == entries;
  }

  class Registry {
    /** In the order of their first registration. */
    var data: seq<Collector>
    /** Built on first use, dropped by every registration. */
    var index: Option<Index>

    ghost predicate Valid()
      reads this
    {
      && (forall i, j :: 0 <= i < j < |data| ==> data[i].name != data[j].name)
      && (index.Some? ==> forall channel: string :: Listed(index.value, channel) == CollectorsOf(data, channel))
    }

    constructor ()
      ensures Valid() && data == []
    {
      data, index := [], None;
    }

    /** Refuses a second collector of the same name. */
    method Register(c: Collector) returns (ok: bool)
      requires Valid()
      modifies this
      ensures Valid()
      ensures ok <==> forall d <- old(data) :: d.name == c.name ==> d == c
      ensures data == if ok && c !in old(data) then old(data) + [c] else old(data)
    {
      for i := 0 to |data|
        invariant forall j :: 0 <= j < i ==> data[j].name != c.name
        invariant data == old(data) && Valid()
      {
        if data[i].name == c.name {
          if data[i] != c {
            return false;
          }
          index := None;
          forall d <- data | d.name == c.name ensures d == c {
            var j :| 0 <= j < |data| && data[j] == d;
          }
          return true;
        }
      }
      data := data + [c];
      index := None;
      return true;
    }

    /** The index answers as a fresh search would. */
    method CollectorsFor(channel: string) returns (found: seq<Collector>)
      requires Valid()
      modifies this`index
      ensures Valid() && found == CollectorsOf(data, channel)
      ensures forall c: Collector :: c in found <==> c in data && channel in c.channels
      ensures IsSorted(found)
    {
      CollectorsAreExact(data, channel);
      if index.None? {
        var built := BuildIndex(data);
        index := Some(built);
      }
      found := Listed(index.value, channel);
    }
  }
}
