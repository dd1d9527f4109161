/** Showing what a proposal changes in a paragraph (voteit/proposal/diff.py). */
module Diff {
  import opened Text

  // ------------------------------------------------------------- data model

  type Part = string

  datatype Change = Equal | Insert | Delete

  datatype Tag = Same | Inserted | Deleted | Replaced

  /** What the sequence matcher says about a stretch of both texts. */
  datatype Opcode = Opcode(tag: Tag, astart: nat, aend: nat, bstart: nat, bend: nat)

  datatype Group = Group(change: Change, parts: seq<Part>, first: bool, last: bool)

  const FILL: Part := "[...]"

  // --------------------------------------------------------- the matcher's contract

  /** One opcode describes the two stretches it names, neither of them without need. */
  predicate Fits(o: Opcode, orig: seq<Part>, changed: seq<Part>) {
    && o.astart <= o.aend <= |orig|
    && o.bstart <= o.bend <= |changed|
    && match o.tag
       case Same => o.astart < o.aend && orig[o.astart..o.aend] == changed[o.bstart..o.bend]
       case Inserted => o.astart == o.aend && o.bstart < o.bend
       case Deleted => o.astart < o.aend && o.bstart == o.bend
       case Replaced => o.astart < o.aend && o.bstart < o.bend
  }

  /** Opcodes cover both texts from end to end, each beginning where the one before ends. */
  predicate Contiguous(ops: seq<Opcode>, orig: seq<Part>, changed: seq<Part>, a: nat, b: nat) {
    if ops == [] then a == 0 && b == 0
    else
      var o := ops[|ops| - 1];
      && Fits(o, orig, changed) && o.aend == a && o.bend == b
      && Contiguous(ops[..|ops| - 1], orig, changed, o.astart, o.bstart)
  }

  // ------------------------------------------------------------- the groups, stated

  function GroupsOf(o: Opcode, orig: seq<Part>, changed: seq<Part>): seq<Group>
    requires Fits(o, orig, changed)
  {
    var from, to := orig[o.astart..o.aend], changed[o.bstart..o.bend];
    match o.tag
    case Same => [Group(Equal, from, false, false)]
    case Inserted => [Group(Insert, to, false, false)]
    case Deleted => [Group(Delete, from, false, false)]
    case Replaced => [Group(Delete, from, false, false), Group(Insert, to, false, false)]
  }

  function AllGroups(ops: seq<Opcode>, orig: seq<Part>, changed: seq<Part>): seq<Group>
    requires forall o <- ops :: Fits(o, orig, changed)
  {
    if ops == [] then [] else
      AllGroups(ops[..|ops| - 1], orig, changed) + GroupsOf(ops[|ops| - 1], orig, changed)
  }

  function Marked(groups: seq<Group>): seq<Group> {
    seq(|groups|, i requires 0 <= i < |groups| => groups[i].(first := i == 0, last := i == |groups| - 1))
  }

  /** The parts of the groups that are not of a kind. */
  function Without(groups: seq<Group>, change: Change): seq<Part> {
    if groups == [] then []
    else if groups[|groups| - 1].change == change then Without(groups[..|groups| - 1], change)
    else Without(groups[..|groups| - 1], change) + groups[|groups| - 1].parts
  }

  /** The groups that are not of a kind. */
  function Kept(groups: seq<Group>, change: Change): seq<Group> {
    if groups == [] then []
    else if groups[|groups| - 1].change == change then Kept(groups[..|groups| - 1], change)
    else Kept(groups[..|groups| - 1], change) + [groups[|groups| - 1]]
  }

  /** From the `i`th group on, the opcode shows as what it is: what is the same as an unchanged group,
      and what is replaced as a deletion followed by an insertion. */
  predicate ShowsAs(groups: seq<Group>, i: nat, o: Opcode, orig: seq<Part>, changed: seq<Part>)
    requires Fits(o, orig, changed)
  {
    var from, to := orig[o.astart..o.aend], changed[o.bstart..o.bend];
    && i < |groups|
    && match o.tag
       case Same => groups[i].change == Equal && groups[i].parts == from == to
       case Inserted => groups[i].change == Insert && groups[i].parts == to
       case Deleted => groups[i].change == Delete && groups[i].parts == from
       case Replaced =>
         && i + 1 < |groups|
         && groups[i].change == Delete && groups[i].parts == from
         && groups[i + 1].change == Insert && groups[i + 1].parts == to
  }

  lemma {:induction false} GroupsGrow(ops: seq<Opcode>, orig: seq<Part>, changed: seq<Part>, k: nat)
    requires k <= |ops| && forall o <- ops :: Fits(o, orig, changed)
    ensures AllGroups(ops[..k], orig, changed) <= AllGroups(ops, orig, changed)
  {
    hide GroupsOf, Fits;
    var n := |ops| - 1;
    if k <= n {
      assert forall o <- ops[..n] :: o in ops;
      GroupsGrow(ops[..n], orig, changed, k);
      assert ops[..n][..k] == ops[..k];
    } else {
      assert ops[..k] == ops;
    }
  }

  /** Every opcode shows as what it is, right after those before it. */
  lemma OpcodeShowsAs(ops: seq<Opcode>, orig: seq<Part>, changed: seq<Part>, k: nat)
    requires k < |ops| && forall o <- ops :: Fits(o, orig, changed)
    ensures AllGroups(ops[..k], orig, changed) <= AllGroups(ops, orig, changed)
    ensures ops[k] in ops
    ensures ShowsAs(AllGroups(ops, orig, changed), |AllGroups(ops[..k], orig, changed)|, ops[k], orig, changed)
  {
    hide Fits, AllGroups, GroupsOf;
    assert ops[k] in ops && Fits(ops[k], orig, changed);
    GroupsGrow(ops, orig, changed, k);
    GroupsGrow(ops, orig, changed, k + 1);
    OneShowsAs(ops[..k], ops[k], orig, changed);
    assert ops[..k + 1] == ops[..k] + [ops[k]];
  }

  lemma OneShowsAs(before: seq<Opcode>, o: Opcode, orig: seq<Part>, changed: seq<Part>)
    requires Fits(o, orig, changed) && forall p <- before :: Fits(p, orig, changed)
    ensures ShowsAs(AllGroups(before + [o], orig, changed), |AllGroups(before, orig, changed)|, o, orig, changed)
  {
    assert (before + [o])[..|before|] == before;
  }

  /** And no opcode shows more than once: there is one group for each, and one more for each that
      replaces. */
  lemma {:induction false} OneGroupEach(ops: seq<Opcode>, orig: seq<Part>, changed: seq<Part>)
    requires forall o <- ops :: Fits(o, orig, changed)
    ensures |AllGroups(ops, orig, changed)| == |ops| + |set j | 0 <= j < |ops| && ops[j].tag == Replaced|
  {
    hide Fits;
    if ops != [] {
      var n := |ops| - 1;
      assert ops[n] in ops && forall o <- ops[..n] :: o in ops;
      ReplacedSnoc(ops);
      OneGroupEach(ops[..n], orig, changed);
    }
  }

  lemma ReplacedSnoc(ops: seq<Opcode>)
    requires ops != []
    ensures var n := |ops| - 1;
            |set j | 0 <= j < |ops| && ops[j].tag == Replaced| ==
            |set j | 0 <= j < n && ops[..n][j].tag == Replaced| + if ops[n].tag == Replaced then 1 else 0
  {
    var n := |ops| - 1;
    var all, init := set j | 0 <= j < |ops| && ops[j].tag == Replaced,
                     set j | 0 <= j < n && ops[..n][j].tag == Replaced;
    assert n !in init;
    if ops[n].tag == Replaced {
      assert all == init + {n};
    } else {
      assert all == init;
    }
  }

  // ------------------------------------------------------------- faithfulness

  lemma {:induction false} ContiguousFits(ops: seq<Opcode>, orig: seq<Part>, changed: seq<Part>, a: nat, b: nat)
    requires Contiguous(ops, orig, changed, a, b)
    ensures forall o <- ops :: Fits(o, orig, changed)
    ensures a <= |orig| && b <= |changed|
  {
    if ops != [] {
      var o := ops[|ops| - 1];
      ContiguousFits(ops[..|ops| - 1], orig, changed, o.astart, o.bstart);
      assert ops == ops[..|ops| - 1] + [o];
    }
  }

  lemma WithoutSnoc(groups: seq<Group>, g: Group, change: Change)
    ensures Without(groups + [g], change) ==
            if g.change == change then Without(groups, change) else Without(groups, change) + g.parts
  {
    assert (groups + [g])[..|groups|] == groups;
  }

  lemma WithoutOpcode(groups: seq<Group>, o: Opcode, orig: seq<Part>, changed: seq<Part>)
    requires Fits(o, orig, changed)
    ensures Without(groups + GroupsOf(o, orig, changed), Insert) == Without(groups, Insert) + orig[o.astart..o.aend]
    ensures Without(groups + GroupsOf(o, orig, changed), Delete) == Without(groups, Delete) + changed[o.bstart..o.bend]
  {
    hide Without;
    var gs := GroupsOf(o, orig, changed);
    if |gs| == 1 {
      WithoutSnoc(groups, gs[0], Insert);
      WithoutSnoc(groups, gs[0], Delete);
      assert groups + gs == groups + [gs[0]];
    } else {
      WithoutSnoc(groups, gs[0], Insert);
      WithoutSnoc(groups, gs[0], Delete);
      WithoutSnoc(groups + [gs[0]], gs[1], Insert);
      WithoutSnoc(groups + [gs[0]], gs[1], Delete);
      assert groups + gs == groups + [gs[0]] + [gs[1]];
    }
  }

  /** Reading past the insertions gives the original, reading past the deletions the changed text. */
  lemma {:induction false} GroupsAreFaithful(ops: seq<Opcode>, orig: seq<Part>, changed: seq<Part>, a: nat, b: nat)
    requires Contiguous(ops, orig, changed, a, b)
    requires forall o <- ops :: Fits(o, orig, changed)
    ensures a <= |orig| && b <= |changed|
    ensures Without(AllGroups(ops, orig, changed), Insert) == orig[..a]
    ensures Without(AllGroups(ops, orig, changed), Delete) == changed[..b]
  {
    hide Without, GroupsOf;
    if ops == [] {
      NoGroups();
    } else {
      var init, o := ops[..|ops| - 1], ops[|ops| - 1];
      assert forall p <- init :: p in ops;
      GroupsAreFaithful(init, orig, changed, o.astart, o.bstart);
      WithoutOpcode(AllGroups(init, orig, changed), o, orig, changed);
      assert orig[..o.astart] + orig[o.astart..o.aend] == orig[..o.aend];
      assert changed[..o.bstart] + changed[o.bstart..o.bend] == changed[..o.bend];
    }
  }

  lemma NoGroups()
    ensures Without([], Insert) == [] && Without([], Delete) == []
  {
  }

  lemma {:induction false} MarkingKeepsParts(groups: seq<Group>, marked: seq<Group>, change: Change)
    requires |marked| == |groups|
    requires forall i :: 0 <= i < |groups| ==>
               marked[i].change == groups[i].change && marked[i].parts == groups[i].parts
    ensures Without(marked, change) == Without(groups, change)
  {
    if groups != [] {
      MarkingKeepsParts(groups[..|groups| - 1], marked[..|marked| - 1], change);
    }
  }

  // ------------------------------------------------------------------- joining

  function Texts(joiner: string, groups: seq<Group>): seq<string> {
    seq(|groups|, i requires 0 <= i < |groups| => Join(joiner, groups[i].parts))
  }

  lemma {:induction false} WithoutIsKept(groups: seq<Group>, change: Change, joiner: string)
    requires forall g <- groups :: g.parts != []
    ensures Join(joiner, Texts(joiner, Kept(groups, change))) == Join(joiner, Without(groups, change))
    ensures Kept(groups, change) == [] <==> Without(groups, change) == []
  {
    hide Join;
    if groups == [] {
      assert Texts(joiner, []) == [];
    } else {
      var init, g := groups[..|groups| - 1], groups[|groups| - 1];
      assert groups == init + [g];
      WithoutIsKept(init, change, joiner);
      if g.change != change {
        var kept := Kept(init, change);
        assert Texts(joiner, kept + [g]) == Texts(joiner, kept) + [Join(joiner, g.parts)];
        JoinOne(joiner, Join(joiner, g.parts));
        if kept == [] {
          assert Texts(joiner, kept) == [];
          assert [] + g.parts == g.parts;
        } else {
          JoinAppend(joiner, Texts(joiner, kept), [Join(joiner, g.parts)]);
          JoinAppend(joiner, Without(init, change), g.parts);
        }
      }
    }
  }

  lemma JoinOne(joiner: string, s: string)
    ensures Join(joiner, [s]) == s && [s] + [] == [s] && [] + [s] == [s]
  {
  }

  lemma {:induction false} GroupsAreFilled(ops: seq<Opcode>, orig: seq<Part>, changed: seq<Part>)
    requires forall o <- ops :: Fits(o, orig, changed)
    ensures forall g <- AllGroups(ops, orig, changed) :: g.parts != []
  {
    if ops != [] {
      var o := ops[|ops| - 1];
      assert o in ops;
      GroupsAreFilled(ops[..|ops| - 1], orig, changed);
      assert |orig[o.astart..o.aend]| == o.aend - o.astart && |changed[o.bstart..o.bend]| == o.bend - o.bstart;
      assert forall g <- GroupsOf(o, orig, changed) :: |g.parts| > 0;
    }
  }

  /** Joining each group and then the groups is joining the text: what is shown without the
      deletions reads as the changed text, and without the insertions as the original. */
  lemma ShownIsText(ops: seq<Opcode>, orig: seq<Part>, changed: seq<Part>, joiner: string)
    requires Contiguous(ops, orig, changed, |orig|, |changed|)
    requires forall o <- ops :: Fits(o, orig, changed)
    ensures var groups := Marked(AllGroups(ops, orig, changed));
            && Join(joiner, Texts(joiner, Kept(groups, Delete))) == Join(joiner, changed)
            && Join(joiner, Texts(joiner, Kept(groups, Insert))) == Join(joiner, orig)
  {
    hide AllGroups, Kept, Without, Join;
    var all := AllGroups(ops, orig, changed);
    var groups := Marked(all);
    GroupsAreFaithful(ops, orig, changed, |orig|, |changed|);
    assert orig[..|orig|] == orig && changed[..|changed|] == changed;
    GroupsAreFilled(ops, orig, changed);
    forall g <- groups ensures g.parts != [] {
      var i :| 0 <= i < |groups| && groups[i] == g;
      assert all[i] in all;
    }
    MarkingKeepsParts(all, groups, Delete);
    MarkingKeepsParts(all, groups, Insert);
    WithoutIsKept(groups, Delete, joiner);
    WithoutIsKept(groups, Insert, joiner);
  }

  // ----------------------------------------------------------------- the brief form

  /** From how many parts on an unchanged group is cut, and to how many. */
  function Cap(joiner: string): (nat, nat) {
    if joiner == " " then (8, 4) else (2, 1)
  }

  function BriefParts(g: Group, joiner: string): seq<Part> {
    var (capAt, capTo) := Cap(joiner);
    if g.change == Equal && |g.parts| > capAt then
      if g.first then [FILL] + g.parts[|g.parts| - capTo..]
      else if g.last then g.parts[..capTo] + [FILL]
      else if |g.parts| > capAt * 2 + 1 then g.parts[..capTo] + [FILL] + g.parts[|g.parts| - capTo..]
      else g.parts
    else g.parts
  }

  /** The first `n` parts and the last `m`, with one filler for those between. */
  predicate Abridges(brief: seq<Part>, parts: seq<Part>, n: nat, m: nat) {
    n + m < |parts| && brief == parts[..n] + [FILL] + parts[|parts| - m..]
  }

  /** The brief form shows every change in full. Of an unchanged group it shows all, or a beginning
      and an end of it around one filler, never more than twice the cap and one. */
  lemma BriefShowsChanges(g: Group, joiner: string)
    ensures g.change != Equal ==> BriefParts(g, joiner) == g.parts
    ensures BriefParts(g, joiner) == g.parts ||
            exists n: nat, m: nat :: Abridges(BriefParts(g, joiner), g.parts, n, m)
    ensures g.change == Equal ==> |BriefParts(g, joiner)| <= 2 * Cap(joiner).0 + 1
    ensures |BriefParts(g, joiner)| <= |g.parts|
  {
    var (capAt, capTo) := Cap(joiner);
    var brief, k := BriefParts(g, joiner), |g.parts|;
    if g.change == Equal && k > capAt {
      if g.first {
        assert g.parts[..0] + [FILL] == [FILL];
        assert Abridges(brief, g.parts, 0, capTo);
      } else if g.last {
        assert brief + g.parts[k..] == brief;
        assert Abridges(brief, g.parts, capTo, 0);
      } else if k > capAt * 2 + 1 {
        assert Abridges(brief, g.parts, capTo, capTo);
      }
    }
  }

  /** When an unchanged group is cut: at more than eight words or two lines next to one change only,
      and between two changes at more than twice that and one. */
  predicate IsCut(g: Group, joiner: string) {
    var cap := if joiner == " " then 8 else 2;
    g.change == Equal && |g.parts| > if g.first || g.last then cap else cap * 2 + 1
  }

  /** What is left of it: four words or one line next to every change, around one filler. */
  predicate CutTo(brief: seq<Part>, g: Group, joiner: string) {
    var keep := if joiner == " " then 4 else 1;
    Abridges(brief, g.parts, if g.first then 0 else keep, if g.last && !g.first then 0 else keep)
  }

  /** The brief form is exactly that. */
  lemma BriefIsExact(g: Group, joiner: string)
    ensures if IsCut(g, joiner) then CutTo(BriefParts(g, joiner), g, joiner) else BriefParts(g, joiner) == g.parts
  {
    var brief, n := BriefParts(g, joiner), |g.parts|;
    if IsCut(g, joiner) {
      if g.first {
        assert g.parts[..0] + [FILL] == [FILL];
      } else if g.last {
        assert brief + g.parts[n..] == brief;
      }
    }
  }

  // ------------------------------------------------------------------ the changes

  class Changes {
    const orig: seq<Part>
    const changed: seq<Part>
    /** What the sequence matcher said. */
    ghost const ops: seq<Opcode>
    var changeGroups: seq<Group>

    /** The groups are those of the opcodes. */
    ghost predicate Valid()
      reads this
    {
      && Contiguous(ops, orig, changed, |orig|, |changed|)
      && (forall o <- ops :: Fits(o, orig, changed))
      && changeGroups == Marked(AllGroups(ops, orig, changed))
    }

    constructor (orig: seq<Part>, changed: seq<Part>, ops: seq<Opcode>)
      requires Contiguous(ops, orig, changed, |orig|, |changed|)
      requires forall o <- ops :: Fits(o, orig, changed)
      ensures Valid() && this.orig == orig && this.changed == changed && this.ops == ops
    {
      this.orig, this.changed, this.ops := orig, changed, ops;
      changeGroups := [];
      new;
      DoCompare(ops);
    }

    method AddChangeGroup(change: Change, o: Opcode)
      requires o.astart <= o.aend <= |orig| && o.bstart <= o.bend <= |changed|
      modifies this
      ensures changeGroups == old(changeGroups) +
              [Group(change, if change == Insert then changed[o.bstart..o.bend] else orig[o.astart..o.aend],
                     false, false)]
    {
      var parts;
      if change == Insert {
        parts := changed[o.bstart..o.bend];
      } else {
        parts := orig[o.astart..o.aend];
      }
      changeGroups := changeGroups + [Group(change, parts, false, false)];
    }

    method DoCompare(ops: seq<Opcode>)
      requires changeGroups == []
      requires forall o <- ops :: Fits(o, orig, changed)
      modifies this
      ensures changeGroups == Marked(AllGroups(ops, orig, changed))
      ensures forall i :: 0 <= i < |changeGroups| ==>
                (changeGroups[i].first <==> i == 0) && (changeGroups[i].last <==> i == |changeGroups| - 1)
    {
      for i := 0 to |ops|
        invariant changeGroups == AllGroups(ops[..i], orig, changed)
      {
        assert ops[i] in ops && ops[..i + 1][..i] == ops[..i];
        var o := ops[i];
        match o.tag {
          case Replaced =>
            AddChangeGroup(Delete, o);
            AddChangeGroup(Insert, o);
          case Same => AddChangeGroup(Equal, o);
          case Inserted => AddChangeGroup(Insert, o);
          case Deleted => AddChangeGroup(Delete, o);
        }
      }
      assert ops[..|ops|] == ops;
      ghost var all := changeGroups;
      MadeUnmarked(ops, orig, changed);
      if changeGroups != [] {
        changeGroups := changeGroups[0 := changeGroups[0].(first := true)];
        var last := |changeGroups| - 1;
        changeGroups := changeGroups[last := changeGroups[last].(last := true)];
      }
      assert changeGroups == Marked(all);
    }

    /** The texts of the groups shown, with deletions or without, in full or briefly. In full and
        without deletions they read as the changed text; briefly every change is still shown. */
    method Shown(joiner: string, brief: bool, noDeleted: bool) returns (texts: seq<string>)
      requires Valid()
      ensures !brief && noDeleted ==> Join(joiner, texts) == Join(joiner, changed)
      ensures !brief && !noDeleted ==> texts == Texts(joiner, changeGroups)
      ensures brief ==>
                var groups := if noDeleted then Kept(changeGroups, Delete) else changeGroups;
                |texts| == |groups| && forall i :: 0 <= i < |groups| ==> ShowsBriefly(texts[i], groups[i], joiner)
    {
      hide Kept, Join, AllGroups, BriefParts, IsCut, CutTo;
      ShownIsText(ops, orig, changed, joiner);
      var groups := changeGroups;
      if noDeleted {
        groups := Kept(changeGroups, Delete);
      }
      texts := [];
      for i := 0 to |groups|
        invariant |texts| == i
        invariant forall k :: 0 <= k < i ==>
          texts[k] == Join(joiner, if brief then BriefParts(groups[k], joiner) else groups[k].parts)
      {
        texts := texts + [Join(joiner, if brief then BriefParts(groups[i], joiner) else groups[i].parts)];
      }
      if brief {
        forall i | 0 <= i < |groups| ensures ShowsBriefly(texts[i], groups[i], joiner) {
          ShownBriefly(groups[i], joiner);
        }
      } else {
        assert texts == Texts(joiner, groups);
      }
    }
  }

  /** The text of a change in full, and of an unchanged group in full or of what is left of it. */
  ghost predicate ShowsBriefly(text: string, g: Group, joiner: string) {
    if IsCut(g, joiner) then exists brief: seq<Part> :: CutTo(brief, g, joiner) && text == Join(joiner, brief)
    else text == Join(joiner, g.parts)
  }

  lemma ShownBriefly(g: Group, joiner: string)
    ensures ShowsBriefly(Join(joiner, BriefParts(g, joiner)), g, joiner)
  {
    hide BriefParts, Join, IsCut, CutTo;
    BriefIsExact(g, joiner);
  }

  lemma {:induction false} MadeUnmarked(ops: seq<Opcode>, orig: seq<Part>, changed: seq<Part>)
    requires forall o <- ops :: Fits(o, orig, changed)
    ensures forall g <- AllGroups(ops, orig, changed) :: !g.first && !g.last
  {
    if ops != [] {
      MadeUnmarked(ops[..|ops| - 1], orig, changed);
    }
  }
}
