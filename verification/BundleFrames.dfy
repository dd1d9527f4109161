/** How full the frames of an initial state are, told by what is in them
    (voteit/messaging/bundle.py). */
module BundleFrames {
  import opened Collections
  import opened Partition
  import opened Bundle
  import opened BundleProperties

  // ------------------------------------------------- no frame is sent too early

  function MessageCount(entries: seq<Entry>): nat {
    if entries == [] then 0
    else MessageCount(entries[..|entries| - 1]) + |entries[|entries| - 1].messages|
  }

  lemma MessageCountSnoc(entries: seq<Entry>, e: Entry)
    ensures MessageCount(entries + [e]) == MessageCount(entries) + |e.messages|
  {
    assert (entries + [e])[..|entries|] == entries;
  }

  lemma NoMessages(group: seq<Token>)
    requires group == []
    ensures MessageCount(Render(group)) == 0
  {
  }

  lemma JsonSizesGrow(messages: seq<Message>, body: Option<Piece>)
    ensures body.Some? && Honest(body.value) ==>
              JsonSizes(messages) + Size(body) <= JsonSizes(messages + Messages(body)) + 1
  {
    if body.Some? {
      assert (messages + Messages(body))[..|messages|] == messages;
    }
  }

  /** What a group is reckoned to cost is at most one comma for each message above what it does. */
  lemma {:induction false} GroupIsFilled(group: seq<Token>, usable: int)
    requires FairGroup(group, usable)
    ensures Cost(group) <= EntriesCost(Render(group)) + MessageCount(Render(group))
  {
    hide Cost, Render, EntriesCost, MessageCount, Trimmed, Honest, JsonSizes, KeepsLimit;
    if group == [] {
      NothingRendered(group);
      NoMessages(group);
    } else {
      var init, t := group[..|group| - 1], group[|group| - 1];
      GroupIsFilled(init, usable);
      var before, prefix := RenderSplit(group);
      var e := Entry(t.header, t.last, prefix + Messages(t.body));
      EntriesSnoc(before, e);
      MessageCountSnoc(before, e);
      JsonSizesGrow(prefix, t.body);
      JsonSizesSnoc(prefix, t.body);
      if OpensEntry(group) {
        NoJson(prefix);
      } else {
        var f := Entry(t.header, Render(init)[|Render(init)| - 1].complete, prefix);
        EntriesSnoc(before, f);
        MessageCountSnoc(before, f);
      }
    }
  }

  /** A section goes on until its last token. */
  ghost predicate Unbroken(tokens: seq<Token>) {
    forall k :: 0 < k < |tokens| && !tokens[k - 1].last ==> SameRun(tokens[k - 1], tokens[k])
  }

  lemma SectionIsUnbroken(i: nat, section: Section, pieces: seq<Piece>)
    ensures var tokens := SectionTokens(i, section, pieces);
            Unbroken(tokens) && tokens != [] && tokens[|tokens| - 1].last
  {
    SectionTokensOfPieces(i, section, pieces);
  }

  lemma {:induction false} TokensAreUnbroken(sections: seq<Section>, usable: int)
    ensures var tokens := Tokens(sections, usable);
            Unbroken(tokens) && (tokens != [] ==> tokens[|tokens| - 1].last)
  {
    hide SectionTokens, SectionPieces;
    if sections != [] {
      var i := |sections| - 1;
      var pieces := SectionPieces(sections[i], usable);
      TokensAreUnbroken(sections[..i], usable);
      SectionIsUnbroken(i, sections[i], pieces);
      var a, b := Tokens(sections[..i], usable), SectionTokens(i, sections[i], pieces);
      var all := Tokens(sections, usable);
      assert all == a + b && (a != [] ==> all[|a| - 1] == a[|a| - 1]);
      forall k | 0 < k < |all| && !all[k - 1].last ensures SameRun(all[k - 1], all[k]) {
        if k < |a| {
          assert all[k - 1] == a[k - 1] && all[k] == a[k];
        } else if k > |a| {
          assert all[k - 1] == b[k - 1 - |a|] && all[k] == b[k - |a|];
        }
      }
    }
  }

  lemma {:induction false} UnbrokenAcross(groups: seq<seq<Token>>, k: nat)
    requires Unbroken(Concat(groups)) && k + 1 < |groups| && groups[k] != [] && groups[k + 1] != []
    ensures var t, u := groups[k][|groups[k]| - 1], groups[k + 1][0];
            !t.last ==> SameRun(t, u)
  {
    hide SameRun;
    var all, rest := Concat(groups), Concat(groups[1..]);
    if k == 0 {
      assert rest == groups[1] + Concat(groups[1..][1..]);
      var n := |groups[0]|;
      assert all[n - 1] == groups[0][n - 1] && all[n] == rest[0] == groups[1][0];
    } else {
      forall j | 0 < j < |rest| && !rest[j - 1].last ensures SameRun(rest[j - 1], rest[j]) {
        assert all[|groups[0]| + j] == rest[j] && all[|groups[0]| + j - 1] == rest[j - 1];
      }
      UnbrokenAcross(groups[1..], k - 1);
    }
  }

  /** The token that opens the next frame did not fit any more, so it carries a message. */
  lemma NextDidNotFit(group: seq<Token>, t: Token, usable: int)
    requires group != [] && FairGroup(group, usable) && Fair(t, usable)
    requires WithinBudget(group, usable) && !FrameFits(usable)(group + [t])
    requires !group[|group| - 1].last ==> SameRun(group[|group| - 1], t)
    ensures t.body.Some?
    ensures EntriesCost(Render(group)) + MessageCount(Render(group)) + JsonSize(t.body.value.message) + 1 +
            (if Render(group)[|Render(group)| - 1].complete then SectionOverhead(t.header) else 0) > usable
  {
    hide Render, EntriesCost, MessageCount, Honest, KeepsLimit, JsonSize, SectionOverhead, WithinBudget;
    BudgetSnoc(group, t, usable);
    GroupIsFilled(group, usable);
    LastEntry(group);
    var all := group + [t];
    assert all[..|group|] == group && all[|all| - 1] == t && all[|all| - 2] == group[|group| - 1];
    HonestSize(t.body.value);
  }

  lemma HonestSize(piece: Piece)
    ensures Honest(piece) ==> piece.size <= JsonSize(piece.message) + 1
  {
  }

  lemma {:induction false} FirstMessage(group: seq<Token>)
    requires group != [] && group[0].body.Some?
    ensures var first := Render(group)[0];
            first.header == group[0].header && first.messages != [] && first.messages[0] == group[0].body.value.message
  {
    if |group| == 1 {
      assert group[..0] == [];
    } else {
      FirstMessage(group[..|group| - 1]);
    }
  }

  /** No frame is sent while it could have taken more: the first message of the next frame, with
      what its section costs unless the section was going on, would not have fitted, up to one
      comma for each message. */
  lemma FramesAreFull(sections: seq<Section>, pk: int, channelType: string, usable: int, k: nat)
    requires k + 1 < |FramesOf(sections, pk, channelType, usable)|
    ensures var frames := FramesOf(sections, pk, channelType, usable);
            var packed, next := frames[k].sections, frames[k + 1].sections;
            && packed != [] && next != [] && next[0].messages != []
            && EntriesCost(packed) + MessageCount(packed) + JsonSize(next[0].messages[0]) + 1 +
               (if packed[|packed| - 1].complete then SectionOverhead(next[0].header) else 0) > usable
  {
    hide Greedy, Render, Tokens, RenderFrames, Concat, FairGroup, WithinBudget, EntriesCost, MessageCount, Unbroken,
         JsonSize, SectionOverhead, SameRun;
    var fits, tokens := FrameFits(usable), Tokens(sections, usable);
    var groups := Greedy(tokens, fits);
    FramesAreHereditary(usable);
    GreedyIsMaximalPartition(tokens, fits);
    FramesShape(groups, pk, channelType);
    TokensAreFair(sections, usable);
    TokensAreUnbroken(sections, usable);
    GroupsAreFair(groups, usable, k);
    GroupsAreFair(groups, usable, k + 1);
    assert groups[k] != [] && groups[k + 1] != [] && fits(groups[k]);
    UnbrokenAcross(groups, k);
    FirstIsFair(groups[k + 1], usable);
    assert !fits(groups[k] + [groups[k + 1][0]]);
    NextDidNotFit(groups[k], groups[k + 1][0], usable);
    FirstMessage(groups[k + 1]);
  }

  lemma FirstIsFair(group: seq<Token>, usable: int)
    requires group != [] && FairGroup(group, usable)
    ensures Fair(group[0], usable)
  {
  }

  // --------------------------------------------------- no frame is over the budget

  /** The wrapper of a frame and what is in it keep the budget asked for, or that configured when none
      is, unless a lone first message is larger or the budget is too small to hold any. */
  lemma FrameKeepsWholeBudget(sections: seq<Section>, pk: int, channelType: string, budget: Option<int>,
                              configured: int, k: nat)
    requires k < |FramesOf(sections, pk, channelType, Usable(budget, configured))|
    ensures var entries := Trimmed(FramesOf(sections, pk, channelType, Usable(budget, configured))[k].sections);
            var asked := if budget == None || budget == Some(0) then configured else budget.value;
            Crowded(entries) ==> 256 + EntriesCost(entries) <= if asked > 320 then asked else 321
  {
    hide FramesOf, Trimmed, EntriesCost, Crowded;
    FrameKeepsBudget(sections, pk, channelType, Usable(budget, configured), k);
  }

  // ------------------------------------------- an ordinary meeting is one frame

  /** What the sections cost when each is sent whole. */
  function SectionsCost(sections: seq<Section>): nat {
    if sections == [] then 0 else
      var section := sections[|sections| - 1];
      SectionsCost(sections[..|sections| - 1]) + SectionOverhead(section.header) + JsonSizes(section.messages)
  }

  function WholeEntries(sections: seq<Section>): seq<Entry> {
    seq(|sections|, i requires 0 <= i < |sections| => Entry(sections[i].header, true, sections[i].messages))
  }

  lemma {:induction false} MessageWithin(messages: seq<Message>, m: Message)
    requires m in messages
    ensures JsonSize(m) <= JsonSizes(messages)
  {
    hide JsonSize;
    if m != messages[|messages| - 1] {
      MessageWithin(messages[..|messages| - 1], m);
    }
  }

  lemma SizedSnoc(messages: seq<Message>, limit: int)
    requires messages != [] && JsonSize(messages[|messages| - 1]) <= limit
    ensures var m, before := messages[|messages| - 1], SizedPieces(messages[..|messages| - 1], limit);
            && MessagesOf(SizedPieces(messages, limit)) == MessagesOf(before) + [m]
            && SizeSum(SizedPieces(messages, limit)) == SizeSum(before) + JsonSize(m)
  {
    hide JsonSize;
    var m, before := messages[|messages| - 1], SizedPieces(messages[..|messages| - 1], limit);
    var all := SizedPieces(messages, limit);
    assert all == before + [Piece(m, JsonSize(m))];
    assert all[..|before|] == before;
  }

  lemma {:induction false} WholePieces(messages: seq<Message>, limit: int)
    requires JsonSizes(messages) <= limit
    ensures MessagesOf(SizedPieces(messages, limit)) == messages
    ensures SizeSum(SizedPieces(messages, limit)) == JsonSizes(messages)
  {
    hide JsonSize, MessagesOf, SizeSum;
    if messages == [] {
      MessagesOfNone();
      assert SizedPieces(messages, limit) == [];
    } else {
      WholePieces(messages[..|messages| - 1], limit);
      SizedSnoc(messages, limit);
    }
  }

  lemma SectionIsWhole(before: seq<Token>, i: nat, section: Section, usable: int)
    requires Foreign(before, i) && SectionOverhead(section.header) + JsonSizes(section.messages) <= usable
    ensures var tokens := SectionTokens(i, section, SectionPieces(section, usable));
            && tokens != [] && tokens[|tokens| - 1].index == i
            && Render(before + tokens) == Render(before) + [Entry(section.header, true, section.messages)]
            && Cost(before + tokens) == Cost(before) + SectionOverhead(section.header) + JsonSizes(section.messages)
  {
    hide Render, Cost, MessagesOf, SizeSum, JsonSizes, SizedPieces, RunMessages, RunSize, SectionOverhead;
    var pieces := SectionPieces(section, usable);
    var tokens := SectionTokens(i, section, pieces);
    WholePieces(section.messages, usable - SectionOverhead(section.header));
    SectionTokensOfPieces(i, section, pieces);
    if pieces == [] {
      MessagesOfNone();
      RenderForeign(before, tokens[0]);
      assert tokens == [tokens[0]];
    } else {
      RunOfPieces(tokens, pieces);
      RenderRun(before, tokens, i, section.header);
    }
  }

  lemma {:induction false} AllWhole(sections: seq<Section>, usable: int)
    requires SectionsCost(sections) <= usable
    ensures Foreign(Tokens(sections, usable), |sections|) && (Tokens(sections, usable) == [] <==> sections == [])
    ensures Render(Tokens(sections, usable)) == WholeEntries(sections)
    ensures Cost(Tokens(sections, usable)) == SectionsCost(sections)
  {
    hide Render, Cost, JsonSizes, SectionTokens, SectionPieces, SectionOverhead;
    if sections == [] {
      NothingRendered(Tokens(sections, usable));
    } else {
      var i := |sections| - 1;
      AllWhole(sections[..i], usable);
      SectionIsWhole(Tokens(sections[..i], usable), i, sections[i], usable);
      assert WholeEntries(sections) ==
             WholeEntries(sections[..i]) + [Entry(sections[i].header, true, sections[i].messages)];
    }
  }

  lemma {:induction false} CheapGroupFits(group: seq<Token>, usable: int)
    requires Cost(group) <= usable
    ensures WithinBudget(group, usable)
  {
    if group != [] {
      CheapGroupFits(group[..|group| - 1], usable);
    }
  }

  /** What fits into one frame is sent in one frame, every section whole: an ordinary meeting. */
  lemma OneFrameIsEnough(sections: seq<Section>, pk: int, channelType: string, budget: int, configured: int)
    requires sections != [] && FRAME_OVERHEAD + SectionsCost(sections) <= budget
    ensures FramesOf(sections, pk, channelType, Usable(Some(budget), configured)) ==
            [Frame(pk, channelType, 0, WholeEntries(sections))]
    ensures FramesOf(sections, pk, channelType, Usable(None, budget)) ==
            [Frame(pk, channelType, 0, WholeEntries(sections))]
  {
    hide Render, Cost, Tokens, WithinBudget, SectionsCost, Greedy, RenderFrames, Concat, WholeEntries;
    var usable := Usable(Some(budget), configured);
    var tokens, fits := Tokens(sections, usable), FrameFits(usable);
    AllWhole(sections, usable);
    CheapGroupFits(tokens, usable);
    FramesAreHereditary(usable);
    GreedyIsMaximalPartition(tokens, fits);
    ConcatOfOne(tokens);
    GreedyIsFewest(tokens, [tokens], fits);
    var groups := Greedy(tokens, fits);
    if groups == [] {
      NothingCut(groups);
    } else {
      ConcatOfOne(groups[0]);
      assert groups == [groups[0]];
    }
    FramesShape(groups, pk, channelType);
  }

  lemma ConcatOfOne(group: seq<Token>)
    ensures Concat([group]) == group
  {
    assert [group][1..] == [];
  }

  lemma NothingCut(groups: seq<seq<Token>>)
    requires groups == []
    ensures Concat(groups) == []
  {
  }
}
