/** A client that puts the sections of an initial state back together, and the proof that
    it gets back what the collectors produced (voteit/messaging/bundle.py,
    voteit/messaging/messages.py). */
module BundleRoundTrip {
  import opened Collections
  import opened Partition
  import opened Bundle

  datatype Received = Received(header: Header, messages: seq<Message>)

  /** The client holds the sections it has been told are complete, and the one that is still
      coming in.  It is confused by an entry of another section than the one coming in. */
  datatype Client =
    | Client(complete: seq<Received>, coming: Option<Received>)
    | Confused

  function Receive(c: Client, e: Entry): Client {
    match c
    case Confused => Confused
    case Client(complete, None) =>
      if e.complete then Client(complete + [Received(e.header, e.messages)], None)
      else Client(complete, Some(Received(e.header, e.messages)))
    case Client(complete, Some(part)) =>
      if part.header != e.header then Confused
      else if e.complete then Client(complete + [Received(e.header, part.messages + e.messages)], None)
      else Client(complete, Some(Received(e.header, part.messages + e.messages)))
  }

  function ReceiveEntries(c: Client, entries: seq<Entry>): Client {
    if entries == [] then c else Receive(ReceiveEntries(c, entries[..|entries| - 1]), entries[|entries| - 1])
  }

  function ReceiveFrames(c: Client, frames: seq<Frame>): Client {
    if frames == [] then c
    else ReceiveEntries(ReceiveFrames(c, frames[..|frames| - 1]), frames[|frames| - 1].sections)
  }

  const START: Client := Client([], None)

  // ------------------------------------------------------- what a message says

  /** A batch says what its items say, however it is cut; anything else stands for itself. */
  datatype Statement = Whole(message: Message) | Part(cls: BatchClass, item: Item)

  function ItemStatements(cls: BatchClass, items: seq<Item>): seq<Statement> {
    seq(|items|, k requires 0 <= k < |items| => Part(cls, items[k]))
  }

  function MessageStatements(m: Message): seq<Statement> {
    if m.Batch? && m.items != [] then ItemStatements(m.cls, m.items) else [Whole(m)]
  }

  function Statements(messages: seq<Message>): seq<Statement> {
    if messages == [] then []
    else Statements(messages[..|messages| - 1]) + MessageStatements(messages[|messages| - 1])
  }

  lemma StatementsSnoc(messages: seq<Message>, m: Message)
    ensures Statements(messages + [m]) == Statements(messages) + MessageStatements(m)
  {
    assert (messages + [m])[..|messages|] == messages;
  }

  lemma {:induction false} StatementsAppend(a: seq<Message>, b: seq<Message>)
    ensures Statements(a + b) == Statements(a) + Statements(b)
  {
    if b == [] {
      assert a + b == a;
    } else {
      var init, m := b[..|b| - 1], b[|b| - 1];
      assert a + b == (a + init) + [m];
      assert b == init + [m];
      StatementsAppend(a, init);
      StatementsSnoc(a + init, m);
      StatementsSnoc(init, m);
    }
  }

  lemma {:induction false} MessagesOfAppend(a: seq<Piece>, b: seq<Piece>)
    ensures MessagesOf(a + b) == MessagesOf(a) + MessagesOf(b)
  {
    if b == [] {
      assert a + b == a;
    } else {
      var init := b[..|b| - 1];
      assert (a + b)[..|a + b| - 1] == a + init;
      MessagesOfAppend(a, init);
    }
  }

  lemma MessagesOfOne(piece: Piece)
    ensures MessagesOf([piece]) == [piece.message]
    ensures Statements([piece.message]) == MessageStatements(piece.message)
  {
    assert [piece][..0] == [];
    assert [piece.message][..0] == [];
    assert Statements([]) == [];
  }

  lemma {:induction false} ChunkStatements(cls: BatchClass, chunks: seq<seq<Item>>)
    requires forall k :: 0 <= k < |chunks| ==> chunks[k] != []
    ensures Statements(MessagesOf(ChunkPieces(cls, chunks))) == ItemStatements(cls, Concat(chunks))
  {
    hide Statements, MessagesOf, Concat;
    if chunks == [] {
      NothingSaid(cls, chunks);
    } else {
      var init, last := chunks[..|chunks| - 1], chunks[|chunks| - 1];
      assert chunks == init + [last];
      ChunkStatements(cls, init);
      ConcatSnoc(init, last);
      MessagesOfAppend(ChunkPieces(cls, init), [ChunkPiece(cls, last)]);
      MessagesOfOne(ChunkPiece(cls, last));
      StatementsAppend(MessagesOf(ChunkPieces(cls, init)), [ChunkPiece(cls, last).message]);
    }
  }

  lemma NothingSaid(cls: BatchClass, chunks: seq<seq<Item>>)
    requires chunks == []
    ensures Statements(MessagesOf(ChunkPieces(cls, chunks))) == ItemStatements(cls, Concat(chunks))
  {
  }

  /** Splitting a message changes nothing of what it says. */
  lemma SplitKeepsStatements(m: Message, limit: int)
    ensures Statements(MessagesOf(SplitPieces(m, limit))) == MessageStatements(m)
  {
    hide Greedy, Statements, MessagesOf, Concat, ChunkPieces;
    if Splittable(m) {
      var fits := ChunkFits(m.cls.envelope, limit);
      assert SinglesFit(fits);
      GreedyIsMaximalPartition(m.items, fits);
      ChunkStatements(m.cls, Greedy(m.items, fits));
    } else {
      MessagesOfOne(Piece(m, JsonSize(m)));
    }
  }

  lemma {:induction false} SizingKeepsStatements(messages: seq<Message>, limit: int)
    ensures Statements(MessagesOf(SizedPieces(messages, limit))) == Statements(messages)
  {
    hide MessagesOf, SplitPieces;
    if messages == [] {
      assert SizedPieces(messages, limit) == [];
      MessagesOfNone();
    } else {
      var init, m := messages[..|messages| - 1], messages[|messages| - 1];
      var piece, parts := Piece(m, JsonSize(m)), SplitPieces(m, limit);
      SizingKeepsStatements(init, limit);
      SplitKeepsStatements(m, limit);
      MessagesOfOne(piece);
      MessagesOfAppend(SizedPieces(init, limit), [piece]);
      MessagesOfAppend(SizedPieces(init, limit), parts);
      StatementsAppend(MessagesOf(SizedPieces(init, limit)), [m]);
      StatementsAppend(MessagesOf(SizedPieces(init, limit)), MessagesOf(parts));
    }
  }

  // ---------------------------------------------- frames do not matter to the client

  function TokenEntry(t: Token): Entry {
    Entry(t.header, t.last, Messages(t.body))
  }

  function ReceiveTokens(c: Client, tokens: seq<Token>): Client {
    if tokens == [] then c
    else Receive(ReceiveTokens(c, tokens[..|tokens| - 1]), TokenEntry(tokens[|tokens| - 1]))
  }

  /** A run of tokens of one section goes on only after a token that is not its last. */
  ghost predicate Regular(tokens: seq<Token>) {
    forall k :: 0 < k < |tokens| && SameRun(tokens[k - 1], tokens[k]) ==> !tokens[k - 1].last
  }

  lemma ReceiveMerged(c: Client, first: Entry, second: Entry)
    requires !first.complete && first.header == second.header
    ensures Receive(Receive(c, first), second) ==
              Receive(c, Entry(second.header, second.complete, first.messages + second.messages))
  {
    match c
    case Confused =>
    case Client(complete, None) =>
    case Client(complete, Some(part)) =>
      assert (part.messages + first.messages) + second.messages == part.messages + (first.messages + second.messages);
  }

  lemma ReceiveSnoc(c: Client, entries: seq<Entry>, e: Entry)
    ensures ReceiveEntries(c, entries + [e]) == Receive(ReceiveEntries(c, entries), e)
  {
    assert (entries + [e])[..|entries|] == entries;
  }

  /** Receiving a rendered group is receiving its tokens one by one. */
  lemma {:induction false} ReceiveGroup(c: Client, group: seq<Token>)
    requires Regular(group)
    ensures ReceiveEntries(c, Render(group)) == ReceiveTokens(c, group)
  {
    hide Receive;
    if group != [] {
      var init, t := group[..|group| - 1], group[|group| - 1];
      ReceiveGroup(c, init);
      if OpensEntry(group) {
        ReceiveSnoc(c, Render(init), TokenEntry(t));
      } else {
        var entries := Render(init);
        var before, e := entries[..|entries| - 1], entries[|entries| - 1];
        LastEntry(init);
        assert entries == before + [e];
        assert SameRun(group[|group| - 2], group[|group| - 1]) && init[|init| - 1] == group[|group| - 2];
        var merged := Entry(t.header, t.last, e.messages + Messages(t.body));
        ReceiveSnoc(c, before, e);
        ReceiveSnoc(c, before, merged);
        ReceiveMerged(ReceiveEntries(c, before), e, TokenEntry(t));
      }
    }
  }

  lemma {:induction false} ReceiveTokensAppend(c: Client, a: seq<Token>, b: seq<Token>)
    ensures ReceiveTokens(c, a + b) == ReceiveTokens(ReceiveTokens(c, a), b)
  {
    hide Receive;
    if b == [] {
      assert a + b == a;
    } else {
      assert (a + b)[..|a + b| - 1] == a + b[..|b| - 1];
      ReceiveTokensAppend(c, a, b[..|b| - 1]);
    }
  }

  /** However the tokens are cut into frames, the client ends up in the same state. */
  lemma {:induction false} ReceiveAllFrames(c: Client, groups: seq<seq<Token>>, pk: int, channelType: string)
    requires Regular(Concat(groups))
    ensures ReceiveFrames(c, RenderFrames(groups, pk, channelType)) == ReceiveTokens(c, Concat(groups))
  {
    hide Receive, Render, ReceiveTokens, ReceiveEntries, Concat;
    if groups == [] {
      NoTokens(c, groups);
    } else {
      var init, group := groups[..|groups| - 1], groups[|groups| - 1];
      assert groups == init + [group];
      ConcatSnoc(init, group);
      RegularParts(Concat(init), group);
      ReceiveAllFrames(c, init, pk, channelType);
      ReceiveGroup(ReceiveTokens(c, Concat(init)), group);
      ReceiveTokensAppend(c, Concat(init), group);
    }
  }

  lemma NoTokens(c: Client, groups: seq<seq<Token>>)
    requires groups == []
    ensures ReceiveTokens(c, Concat(groups)) == c
  {
  }

  lemma RegularParts(a: seq<Token>, b: seq<Token>)
    requires Regular(a + b)
    ensures Regular(a) && Regular(b)
  {
    forall k | 0 < k < |a| && SameRun(a[k - 1], a[k]) ensures !a[k - 1].last {
      assert (a + b)[k] == a[k] && (a + b)[k - 1] == a[k - 1];
    }
    forall k | 0 < k < |b| && SameRun(b[k - 1], b[k]) ensures !b[k - 1].last {
      assert (a + b)[|a| + k] == b[k] && (a + b)[|a| + k - 1] == b[k - 1];
    }
  }

  // ------------------------------------------------------------- the sections

  ghost function Expected(sections: seq<Section>, usable: int): seq<Received> {
    if sections == [] then [] else
      var section := sections[|sections| - 1];
      Expected(sections[..|sections| - 1], usable) +
      [Received(section.header, MessagesOf(SectionPieces(section, usable)))]
  }

  lemma {:induction false} ReceivePieces(complete: seq<Received>, tokens: seq<Token>, i: nat, header: Header,
                                         pieces: seq<Piece>, k: nat)
    requires PieceTokens(tokens, i, header, pieces) && k <= |pieces|
    ensures ReceiveTokens(Client(complete, None), tokens[..k]) ==
              if k == 0 then Client(complete, None)
              else if k < |pieces| then Client(complete, Some(Received(header, MessagesOf(pieces[..k]))))
              else Client(complete + [Received(header, MessagesOf(pieces[..k]))], None)
  {
    if k > 0 {
      assert tokens[..k][..k - 1] == tokens[..k - 1];
      assert pieces[..k] == pieces[..k - 1] + [pieces[k - 1]];
      assert tokens[..k][k - 1] == tokens[k - 1];
      MessagesOfAppend(pieces[..k - 1], [pieces[k - 1]]);
      MessagesOfOne(pieces[k - 1]);
      if k == 1 {
        MessagesOfNone();
        assert pieces[..0] == [];
      }
      ReceivePieces(complete, tokens, i, header, pieces, k - 1);
    }
  }

  lemma ReceiveSection(complete: seq<Received>, i: nat, section: Section, pieces: seq<Piece>)
    ensures ReceiveTokens(Client(complete, None), SectionTokens(i, section, pieces)) ==
              Client(complete + [Received(section.header, MessagesOf(pieces))], None)
  {
    hide MessagesOf;
    var tokens := SectionTokens(i, section, pieces);
    SectionTokensOfPieces(i, section, pieces);
    if pieces == [] {
      MessagesOfNone();
      assert tokens[..0] == [];
    } else {
      ReceivePieces(complete, tokens, i, section.header, pieces, |pieces|);
      assert tokens[..|pieces|] == tokens && pieces[..|pieces|] == pieces;
    }
  }

  lemma {:induction false} ReceiveSections(sections: seq<Section>, usable: int)
    ensures ReceiveTokens(START, Tokens(sections, usable)) == Client(Expected(sections, usable), None)
  {
    hide ReceiveTokens, SectionTokens, SectionPieces, MessagesOf;
    if sections == [] {
      NoTokens(START, []);
      assert Tokens(sections, usable) == [] && Concat<Token>([]) == [];
    } else {
      var i := |sections| - 1;
      var pieces := SectionPieces(sections[i], usable);
      ReceiveSections(sections[..i], usable);
      ReceiveTokensAppend(START, Tokens(sections[..i], usable), SectionTokens(i, sections[i], pieces));
      ReceiveSection(Expected(sections[..i], usable), i, sections[i], pieces);
    }
  }

  lemma SectionIsRegular(i: nat, section: Section, pieces: seq<Piece>)
    ensures Regular(SectionTokens(i, section, pieces)) && SectionTokens(i, section, pieces) != []
    ensures forall k :: 0 <= k < |SectionTokens(i, section, pieces)| ==> SectionTokens(i, section, pieces)[k].index == i
  {
    SectionTokensOfPieces(i, section, pieces);
  }

  lemma {:induction false} TokensAreRegular(sections: seq<Section>, usable: int)
    ensures Regular(Tokens(sections, usable))
    ensures forall k :: 0 <= k < |Tokens(sections, usable)| ==> Tokens(sections, usable)[k].index < |sections|
  {
    hide SectionTokens, SectionPieces;
    if sections != [] {
      var i := |sections| - 1;
      var pieces := SectionPieces(sections[i], usable);
      TokensAreRegular(sections[..i], usable);
      SectionIsRegular(i, sections[i], pieces);
      var a, b := Tokens(sections[..i], usable), SectionTokens(i, sections[i], pieces);
      var all := Tokens(sections, usable);
      assert all == a + b;
      forall k | 0 < k < |all| && SameRun(all[k - 1], all[k]) ensures !all[k - 1].last {
        if k < |a| {
          assert all[k - 1] == a[k - 1] && all[k] == a[k];
        } else if k > |a| {
          assert all[k - 1] == b[k - 1 - |a|] && all[k] == b[k - |a|];
        } else {
          assert all[k - 1] == a[k - 1] && all[k] == b[0];
        }
      }
    }
  }

  lemma {:induction false} ExpectedSays(sections: seq<Section>, usable: int, k: nat)
    requires k < |sections|
    ensures |Expected(sections, usable)| == |sections|
    ensures Expected(sections, usable)[k].header == sections[k].header
    ensures Statements(Expected(sections, usable)[k].messages) == Statements(sections[k].messages)
  {
    hide Statements, MessagesOf, SizedPieces;
    var i := |sections| - 1;
    if k < i {
      ExpectedSays(sections[..i], usable, k);
    } else {
      ExpectedLength(sections[..i], usable);
      SizingKeepsStatements(sections[i].messages, usable - SectionOverhead(sections[i].header));
    }
  }

  lemma {:induction false} ExpectedLength(sections: seq<Section>, usable: int)
    ensures |Expected(sections, usable)| == |sections|
  {
    if sections != [] {
      ExpectedLength(sections[..|sections| - 1], usable);
    }
  }

  /** The round trip.  A client that reads the frames in order is never confused and is left
      with nothing half received: it holds exactly the sections that were packed, in order,
      each with its name and failure flag, and each saying what its collector said. */
  lemma RoundTrip(sections: seq<Section>, pk: int, channelType: string, usable: int)
    ensures var c := ReceiveFrames(START, FramesOf(sections, pk, channelType, usable));
            && c.Client? && c.coming == None && |c.complete| == |sections|
            && forall k :: 0 <= k < |sections| ==>
                 && c.complete[k].header == sections[k].header
                 && Statements(c.complete[k].messages) == Statements(sections[k].messages)
  {
    hide Greedy, ReceiveFrames, RenderFrames, Tokens, Expected, ReceiveTokens, Statements, Concat, WithinBudget;
    var tokens, fits := Tokens(sections, usable), FrameFits(usable);
    SingleTokensFit(usable);
    GreedyIsMaximalPartition(tokens, fits);
    TokensAreRegular(sections, usable);
    ReceiveAllFrames(START, Greedy(tokens, fits), pk, channelType);
    ReceiveSections(sections, usable);
    ExpectedLength(sections, usable);
    forall k | 0 <= k < |sections|
      ensures Expected(sections, usable)[k].header == sections[k].header
      ensures Statements(Expected(sections, usable)[k].messages) == Statements(sections[k].messages)
    {
      ExpectedSays(sections, usable, k);
    }
  }

  lemma SingleTokensFit(usable: int)
    ensures SinglesFit(FrameFits(usable))
  {
    forall t: Token {:trigger [t]} ensures FrameFits(usable)([t]) {
      assert [t][..0] == [];
      assert WithinBudget([t], usable);
    }
  }
}
