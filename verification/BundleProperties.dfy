/** What the frames of an initial state mean to the client that receives them, and how
    well they are filled (voteit/messaging/bundle.py). */
module BundleProperties {
  import opened Collections
  import opened Partition
  import opened Bundle

  // ------------------------------------------------------ the fewest frames

  lemma {:induction false} CostOfTail(group: seq<Token>)
    requires group != []
    ensures Cost(group[1..]) <= Cost(group)
  {
    var n := |group|;
    if n == 1 {
      assert group[1..] == [];
    } else {
      var init := group[..n - 1];
      CostOfTail(init);
      assert group[1..][..n - 2] == init[1..];
      if n == 2 {
        assert init[..0] == [];
        assert group[1..][..0] == [];
        assert Cost(init) == Size(group[0].body) + SectionOverhead(group[0].header);
      }
    }
  }

  lemma {:induction false} BudgetOfTail(group: seq<Token>, usable: int)
    requires group != [] && WithinBudget(group, usable)
    ensures WithinBudget(group[1..], usable)
  {
    var n := |group|;
    if n > 1 {
      BudgetOfTail(group[..n - 1], usable);
      assert group[1..][..n - 2] == group[..n - 1][1..];
      CostOfTail(group);
    }
  }

  lemma {:induction false} BudgetOfStretch(group: seq<Token>, i: nat, j: nat, usable: int)
    requires i <= j <= |group| && WithinBudget(group, usable)
    ensures WithinBudget(group[i..j], usable)
    decreases |group|
  {
    if i > 0 {
      BudgetOfTail(group, usable);
      BudgetOfStretch(group[1..], i - 1, j - 1, usable);
      SliceOfTail(group, i, j);
    } else if j < |group| {
      BudgetOfStretch(group[..|group| - 1], i, j, usable);
      SliceOfInit(group, i, j);
    } else {
      assert group[i..j] == group;
    }
  }

  lemma FramesAreHereditary(usable: int)
    ensures Hereditary(FrameFits(usable)) && SinglesFit(FrameFits(usable))
  {
    var fits := FrameFits(usable);
    forall group: seq<Token>, i: nat, j: nat {:trigger fits(group), group[i..j]} | i < j <= |group| && fits(group)
      ensures fits(group[i..j])
    {
      BudgetOfStretch(group, i, j, usable);
    }
    forall t: Token {:trigger [t]} ensures fits([t]) {
      assert [t][..0] == [];
      assert WithinBudget([t], usable);
    }
  }

  /** No other way of cutting the same pieces, in the same order, into frames that keep the
      budget needs fewer frames. */
  lemma FewestFrames(sections: seq<Section>, pk: int, channelType: string, usable: int, other: seq<seq<Token>>)
    requires Concat(other) == Tokens(sections, usable)
    requires forall k :: 0 <= k < |other| ==> WithinBudget(other[k], usable)
    ensures |FramesOf(sections, pk, channelType, usable)| <= |other|
  {
    hide Greedy, WithinBudget, Tokens, RenderFrames, Concat;
    FramesAreHereditary(usable);
    GreedyIsFewest(Tokens(sections, usable), other, FrameFits(usable));
    FramesShape(Greedy(Tokens(sections, usable), FrameFits(usable)), pk, channelType);
  }

  lemma {:induction false} FramesShape(groups: seq<seq<Token>>, pk: int, channelType: string)
    ensures |RenderFrames(groups, pk, channelType)| == |groups|
    ensures forall k :: 0 <= k < |groups| ==>
              RenderFrames(groups, pk, channelType)[k] == Frame(pk, channelType, k, Render(groups[k]))
  {
    hide Render;
    if groups != [] {
      FramesShape(groups[..|groups| - 1], pk, channelType);
    }
  }

  // ------------------------------------------------------- splitting a batch

  /** The size reckoned for a piece is its real size, or one comma more. */
  predicate Honest(piece: Piece) {
    JsonSize(piece.message) <= piece.size <= JsonSize(piece.message) + 1
  }

  /** No split of the batch into parts that keep the limit has fewer parts. */
  lemma FewestParts(m: Message, limit: int, other: seq<seq<Item>>)
    requires Splittable(m) && Concat(other) == m.items
    requires forall k :: 0 <= k < |other| ==>
               |other[k]| <= 1 || m.cls.envelope + ChunkBytes(other[k]) <= limit
    ensures |SplitPieces(m, limit)| <= |other|
  {
    hide Greedy, Concat;
    var fits := ChunkFits(m.cls.envelope, limit);
    ChunksAreHereditary(m.cls.envelope, limit);
    GreedyIsFewest(m.items, other, fits);
    ChunkPiecesShape(m.cls, Greedy(m.items, fits));
  }

  /** How many parts the messages are sent in when those over the limit are cut as `cuts` has it. */
  ghost function Parts(messages: seq<Message>, limit: int, cuts: seq<seq<seq<Item>>>): nat
    requires |cuts| == |messages|
  {
    if messages == [] then 0 else
      var n := |messages| - 1;
      Parts(messages[..n], limit, cuts[..n]) +
      if Splittable(messages[n]) && JsonSize(messages[n]) > limit then |cuts[n]| else 1
  }

  /** No other way of splitting what is over the limit has fewer parts. */
  lemma {:induction false} FewestPieces(messages: seq<Message>, limit: int, cuts: seq<seq<seq<Item>>>)
    requires |cuts| == |messages|
    requires forall i :: 0 <= i < |messages| && messages[i].Batch? ==> Concat(cuts[i]) == messages[i].items
    requires forall i, k :: 0 <= i < |messages| && messages[i].Batch? && 0 <= k < |cuts[i]| ==>
               |cuts[i][k]| <= 1 || messages[i].cls.envelope + ChunkBytes(cuts[i][k]) <= limit
    ensures |SizedPieces(messages, limit)| <= Parts(messages, limit, cuts)
  {
    hide SplitPieces, ChunkBytes, Concat, JsonSize;
    if messages != [] {
      var n := |messages| - 1;
      FewestPieces(messages[..n], limit, cuts[..n]);
      if Splittable(messages[n]) {
        FewestParts(messages[n], limit, cuts[n]);
      } else {
        SplitWhole(messages[n], limit);
      }
    }
  }

  lemma {:induction false} PiecesAreHonest(messages: seq<Message>, limit: int)
    ensures forall piece <- SizedPieces(messages, limit) :: Honest(piece)
  {
    if messages != [] {
      var m := messages[|messages| - 1];
      PiecesAreHonest(messages[..|messages| - 1], limit);
      forall piece <- SplitPieces(m, limit) ensures Honest(piece) {
        if Splittable(m) {
          var k :| 0 <= k < |SplitPieces(m, limit)| && SplitPieces(m, limit)[k] == piece;
          SplitKeepsLimit(m, limit, k);
        }
      }
    }
  }

  // -------------------------------------------------------- frames and budget

  function JsonSizes(messages: seq<Message>): nat {
    if messages == [] then 0 else JsonSizes(messages[..|messages| - 1]) + JsonSize(messages[|messages| - 1])
  }

  function EntriesCost(entries: seq<Entry>): nat {
    if entries == [] then 0 else
      var e := entries[|entries| - 1];
      EntriesCost(entries[..|entries| - 1]) + SectionOverhead(e.header) + JsonSizes(e.messages)
  }

  /** The entries up to the last one that carries a message. */
  function Trimmed(entries: seq<Entry>): seq<Entry> {
    if entries == [] || entries[|entries| - 1].messages != [] then entries
    else Trimmed(entries[..|entries| - 1])
  }

  /** More than a lone first message. */
  predicate Crowded(entries: seq<Entry>) {
    |entries| >= 2 || (|entries| == 1 && |entries[0].messages| >= 2)
  }

  predicate Fair(t: Token, usable: int) {
    t.body.Some? ==> Honest(t.body.value) && KeepsLimit(t.body.value, usable - SectionOverhead(t.header))
  }

  predicate FairGroup(group: seq<Token>, usable: int) {
    forall k :: 0 <= k < |group| ==> Fair(group[k], usable)
  }

  lemma EntriesSnoc(entries: seq<Entry>, e: Entry)
    ensures EntriesCost(entries + [e]) == EntriesCost(entries) + SectionOverhead(e.header) + JsonSizes(e.messages)
    ensures Trimmed(entries + [e]) == if e.messages == [] then Trimmed(entries) else entries + [e]
  {
    assert (entries + [e])[..|entries|] == entries;
  }

  lemma JsonSizesSnoc(messages: seq<Message>, body: Option<Piece>)
    ensures body.Some? && Honest(body.value) ==>
              JsonSizes(messages + Messages(body)) <= JsonSizes(messages) + Size(body)
    ensures body.None? ==> messages + Messages(body) == messages
  {
    if body.Some? {
      assert (messages + Messages(body))[..|messages|] == messages;
    }
  }

  /** `Render` of a group is `Render` of all but its last token, with that token's message
      either in an entry of its own or at the end of the last entry. */
  lemma RenderSplit(group: seq<Token>) returns (before: seq<Entry>, prefix: seq<Message>)
    requires group != []
    ensures var init, t := group[..|group| - 1], group[|group| - 1];
            && Render(group) == before + [Entry(t.header, t.last, prefix + Messages(t.body))]
            && (OpensEntry(group) ==> prefix == [] && Render(init) == before
                                      && Cost(group) == Cost(init) + SectionOverhead(t.header) + Size(t.body))
            && (!OpensEntry(group) ==>
                  && Render(init) == before + [Entry(t.header, Render(init)[|Render(init)| - 1].complete, prefix)]
                  && Cost(group) == Cost(init) + Size(t.body))
  {
    var init, t := group[..|group| - 1], group[|group| - 1];
    if OpensEntry(group) {
      before, prefix := Render(init), [];
      assert [] + Messages(t.body) == Messages(t.body);
    } else {
      var entries := Render(init);
      before, prefix := entries[..|entries| - 1], entries[|entries| - 1].messages;
      LastEntry(init);
      assert entries == before + [entries[|entries| - 1]];
    }
  }

  lemma {:induction false} GroupCost(group: seq<Token>, usable: int)
    requires FairGroup(group, usable)
    ensures EntriesCost(Render(group)) <= Cost(group)
    ensures WithinBudget(group, usable) && Crowded(Trimmed(Render(group))) ==>
              EntriesCost(Trimmed(Render(group))) <= usable
  {
    hide Cost, Render, EntriesCost, Trimmed, Honest, JsonSizes, KeepsLimit;
    if group == [] {
      NothingRendered(group);
    } else {
      var init, t := group[..|group| - 1], group[|group| - 1];
      GroupCost(init, usable);
      var before, prefix := RenderSplit(group);
      var e := Entry(t.header, t.last, prefix + Messages(t.body));
      EntriesSnoc(before, e);
      JsonSizesSnoc(prefix, t.body);
      if OpensEntry(group) {
        NoJson(prefix);
      } else {
        EntriesSnoc(before, Entry(t.header, Render(init)[|Render(init)| - 1].complete, prefix));
      }
      if |group| == 1 {
        NothingRendered(init);
      }
    }
  }

  lemma NothingRendered(group: seq<Token>)
    requires group == []
    ensures Render(group) == [] && Cost(group) == 0 && EntriesCost(Render(group)) == 0 && Trimmed(Render(group)) == []
  {
  }

  lemma NoJson(messages: seq<Message>)
    requires messages == []
    ensures JsonSizes(messages) == 0
  {
  }

  lemma {:induction false} TokensAreFair(sections: seq<Section>, usable: int)
    ensures FairGroup(Tokens(sections, usable), usable)
  {
    hide Fair, SectionTokens, SectionPieces, SectionOverhead;
    if sections != [] {
      var i := |sections| - 1;
      TokensAreFair(sections[..i], usable);
      SectionIsFair(i, sections[i], usable);
    }
  }

  lemma SectionIsFair(i: nat, section: Section, usable: int)
    ensures FairGroup(SectionTokens(i, section, SectionPieces(section, usable)), usable)
  {
    hide Honest, KeepsLimit, SizedPieces;
    PiecesAreHonest(section.messages, usable - SectionOverhead(section.header));
    PiecesKeepLimit(section.messages, usable - SectionOverhead(section.header));
    SectionTokensOfPieces(i, section, SectionPieces(section, usable));
  }

  lemma {:induction false} GroupsAreFair(groups: seq<seq<Token>>, usable: int, k: nat)
    requires FairGroup(Concat(groups), usable) && k < |groups|
    ensures FairGroup(groups[k], usable)
  {
    hide Fair;
    var all, rest := Concat(groups), Concat(groups[1..]);
    if k == 0 {
      forall j | 0 <= j < |groups[0]| ensures groups[0][j] == all[j] {}
    } else {
      forall j | 0 <= j < |rest| ensures rest[j] == all[|groups[0]| + j] {}
      GroupsAreFair(groups[1..], usable, k - 1);
    }
  }

  /** A frame that holds more than its first message keeps the budget: the real sizes of its
      messages and the overheads of its sections, up to the last section with a message. */
  lemma FrameKeepsBudget(sections: seq<Section>, pk: int, channelType: string, usable: int, k: nat)
    requires k < |FramesOf(sections, pk, channelType, usable)|
    ensures var entries := Trimmed(FramesOf(sections, pk, channelType, usable)[k].sections);
            Crowded(entries) ==> EntriesCost(entries) <= usable
  {
    hide Greedy, Render, Tokens, Trimmed, EntriesCost, RenderFrames, WithinBudget, Concat;
    var fits := FrameFits(usable);
    var groups := Greedy(Tokens(sections, usable), fits);
    FramesAreHereditary(usable);
    GreedyIsMaximalPartition(Tokens(sections, usable), fits);
    FramesShape(groups, pk, channelType);
    TokensAreFair(sections, usable);
    GroupsAreFair(groups, usable, k);
    assert fits(groups[k]);
    GroupCost(groups[k], usable);
  }

  /** Every batch that could be split further fits into a frame of its own. */
  predicate EntryKeepsLimit(e: Entry, usable: int) {
    forall m <- e.messages :: m.Batch? && |m.items| >= 2 ==> JsonSize(m) <= usable - SectionOverhead(e.header)
  }

  lemma {:induction false} GroupKeepsLimit(group: seq<Token>, usable: int)
    requires FairGroup(group, usable)
    ensures forall e <- Render(group) :: EntryKeepsLimit(e, usable)
  {
    hide Render, Cost;
    if group == [] {
      NothingRendered(group);
    } else {
      var init, t := group[..|group| - 1], group[|group| - 1];
      GroupKeepsLimit(init, usable);
      var before, prefix := RenderSplit(group);
      var e := Entry(t.header, t.last, prefix + Messages(t.body));
      assert forall other <- before :: other in Render(init);
      if !OpensEntry(group) {
        var complete := Render(init)[|Render(init)| - 1].complete;
        assert Entry(t.header, complete, prefix) in Render(init);
      }
      assert EntryKeepsLimit(e, usable);
    }
  }

  /** However large the batches handed in: in a frame, a batch of two or more items is never larger
      than what a frame has for its section. */
  lemma FramesKeepLimit(sections: seq<Section>, pk: int, channelType: string, usable: int, k: nat, e: Entry, m: Message)
    requires k < |FramesOf(sections, pk, channelType, usable)|
    requires e in FramesOf(sections, pk, channelType, usable)[k].sections && m in e.messages
    ensures m.Batch? && |m.items| >= 2 ==> JsonSize(m) <= usable - SectionOverhead(e.header)
  {
    hide Greedy, Render, Tokens, RenderFrames, Concat, FairGroup, WithinBudget;
    var fits := FrameFits(usable);
    var groups := Greedy(Tokens(sections, usable), fits);
    FramesAreHereditary(usable);
    GreedyIsMaximalPartition(Tokens(sections, usable), fits);
    FramesShape(groups, pk, channelType);
    TokensAreFair(sections, usable);
    GroupsAreFair(groups, usable, k);
    GroupKeepsLimit(groups[k], usable);
    assert EntryKeepsLimit(e, usable);
  }

  /** Frames are numbered from 0, addressed to the channel, and none is empty. */
  lemma FramesAreNumbered(sections: seq<Section>, pk: int, channelType: string, usable: int, k: nat)
    requires k < |FramesOf(sections, pk, channelType, usable)|
    ensures var frame := FramesOf(sections, pk, channelType, usable)[k];
            frame.seqNo == k && frame.pk == pk && frame.channelType == channelType && frame.sections != []
  {
    hide Greedy, Tokens, RenderFrames;
    var fits := FrameFits(usable);
    FramesAreHereditary(usable);
    GreedyIsMaximalPartition(Tokens(sections, usable), fits);
    FramesShape(Greedy(Tokens(sections, usable), fits), pk, channelType);
  }
}
