/** Packing a channel's initial state into `channel.state` frames
    (voteit/messaging/bundle.py, voteit/messaging/messages.py).

    JSON itself is not modelled, only its size: every indivisible message and every item
    of a generated batch carries its number of serialised bytes, and a batch costs its
    empty envelope, its items and the commas between them. */
module Bundle {
  import opened Collections
  import opened Partition

  // ------------------------------------------------------------ data model

  /** One payload inside a generated `<action>.batch` message. */
  datatype Item = Item(id: int, bytes: nat)

  /** A generated batch class; `envelope` is the size of an instance with no items. */
  datatype BatchClass = BatchClass(action: string, envelope: nat)

  datatype Message =
    | Single(action: string, id: int, bytes: nat)
    | Batch(cls: BatchClass, items: seq<Item>)

  /** What identifies a section on the wire, and whether its collector raised. */
  datatype Header = Header(name: string, failed: bool)

  /** One collector's contribution. */
  datatype Section = Section(header: Header, messages: seq<Message>)

  /** A section, or a part of one, inside a frame. */
  datatype Entry = Entry(header: Header, complete: bool, messages: seq<Message>)

  datatype Frame = Frame(pk: int, channelType: string, seqNo: nat, sections: seq<Entry>)

  /** A message together with the size the packer reckons with. */
  datatype Piece = Piece(message: Message, size: nat)

  const FRAME_OVERHEAD: int := 256
  const SECTION_OVERHEAD: int := 64

  // ----------------------------------------------------------------- sizes

  function Utf8Size(c: char): nat {
    var code := c as int;
    if code < 0x80 then 1 else if code < 0x800 then 2 else if code < 0x1_0000 then 3 else 4
  }

  function Utf8Length(s: string): nat {
    if s == "" then 0 else Utf8Size(s[0]) + Utf8Length(s[1..])
  }

  function SectionOverhead(header: Header): nat {
    SECTION_OVERHEAD + Utf8Length(header.name)
  }

  lemma {:induction false} BytesAreCounted(s: string)
    ensures |s| <= Utf8Length(s) <= 4 * |s|
    ensures Utf8Length(s) == |s| <==> forall i :: 0 <= i < |s| ==> s[i] as int < 128
  {
    if s != "" {
      BytesAreCounted(s[1..]);
      assert s == [s[0]] + s[1..];
    }
  }

  /** The name of a section is charged by the bytes it takes on the wire, one for each character only
      when all of them are in the ASCII range. */
  lemma OverheadCountsBytes(header: Header)
    ensures 64 + |header.name| <= SectionOverhead(header) <= 64 + 4 * |header.name|
    ensures SectionOverhead(header) == 64 + |header.name| <==>
            forall i :: 0 <= i < |header.name| ==> header.name[i] as int < 128
  {
    BytesAreCounted(header.name);
  }

  function ItemBytes(items: seq<Item>): nat {
    if items == [] then 0 else ItemBytes(items[..|items| - 1]) + items[|items| - 1].bytes
  }

  /** The serialised size of a message. */
  function JsonSize(m: Message): nat {
    match m
    case Single(_, _, bytes) => bytes
    case Batch(cls, items) =>
      cls.envelope + ItemBytes(items) + if items == [] then 0 else |items| - 1
  }

  function Usable(budget: Option<int>, configured: int): int {
    var limit := if budget.Some? && budget.value != 0 then budget.value else configured;
    if limit - FRAME_OVERHEAD < SECTION_OVERHEAD + 1 then SECTION_OVERHEAD + 1 else limit - FRAME_OVERHEAD
  }

  // ------------------------------------------- splitting an oversized batch

  /** Every item is charged one extra byte for a comma. */
  function ChunkBytes(chunk: seq<Item>): nat {
    ItemBytes(chunk) + |chunk|
  }

  function ChunkFits(envelope: nat, limit: int): seq<Item> -> bool {
    (chunk: seq<Item>) => |chunk| <= 1 || envelope + ChunkBytes(chunk) <= limit
  }

  function ChunkPiece(cls: BatchClass, chunk: seq<Item>): Piece {
    Piece(Batch(cls, chunk), cls.envelope + ChunkBytes(chunk))
  }

  function ChunkPieces(cls: BatchClass, chunks: seq<seq<Item>>): seq<Piece> {
    if chunks == [] then []
    else ChunkPieces(cls, chunks[..|chunks| - 1]) + [ChunkPiece(cls, chunks[|chunks| - 1])]
  }

  ghost predicate Splittable(m: Message) {
    m.Batch? && m.items != []
  }

  /** What splitting yields: the greedy cut of the items, or the message itself. */
  ghost function SplitPieces(m: Message, limit: int): seq<Piece> {
    if Splittable(m)
    then ChunkPieces(m.cls, Greedy(m.items, ChunkFits(m.cls.envelope, limit)))
    else [Piece(m, JsonSize(m))]
  }

  method SplitBatch(message: Message, limit: int) returns (pieces: seq<Piece>)
    ensures pieces == SplitPieces(message, limit)
  {
    hide *;
    SplitWhole(message, limit);
    if !message.Batch? || message.items == [] {
      return [Piece(message, JsonSize(message))];
    }
    var cls, items := message.cls, message.items;
    ghost var closed: seq<seq<Item>> := [];
    pieces := [];
    var chunk: seq<Item>, chunkSize := [], 0;
    SplittingStart(cls, limit);
    assert items[..0] == [];
    for i := 0 to |items|
      invariant Splitting(pieces, chunk, chunkSize, closed, items[..i], cls, limit)
      invariant chunk == [] <==> i == 0
    {
      var itemSize := items[i].bytes + 1;
      assert items[..i + 1] == items[..i] + [items[i]];
      SplittingStep(pieces, chunk, chunkSize, closed, items[..i], cls, limit, items[i]);
      if chunk != [] && cls.envelope + chunkSize + itemSize > limit {
        pieces := pieces + [Piece(Batch(cls, chunk), cls.envelope + chunkSize)];
        closed := closed + [chunk];
        chunk, chunkSize := [], 0;
      }
      chunk := chunk + [items[i]];
      chunkSize := chunkSize + itemSize;
    }
    assert items[..|items|] == items;
    SplittingDone(pieces, chunk, chunkSize, closed, message, limit);
    if chunk != [] {
      pieces := pieces + [Piece(Batch(cls, chunk), cls.envelope + chunkSize)];
    }
  }

  /** The state of the splitting loop: `pieces` hold the groups `closed`. */
  ghost predicate Splitting(pieces: seq<Piece>, chunk: seq<Item>, chunkSize: int, closed: seq<seq<Item>>,
                            read: seq<Item>, cls: BatchClass, limit: int)
  {
    && pieces == ChunkPieces(cls, closed)
    && chunkSize == ChunkBytes(chunk)
    && (chunk == [] ==> closed == [])
    && Cutting(closed, chunk, read, ChunkFits(cls.envelope, limit))
  }

  lemma SplitWhole(m: Message, limit: int)
    ensures !m.Batch? || m.items == [] ==> SplitPieces(m, limit) == [Piece(m, JsonSize(m))]
  {
  }

  lemma SplittingStart(cls: BatchClass, limit: int)
    ensures Splitting([], [], 0, [], [], cls, limit)
  {
  }

  lemma SplittingStep(pieces: seq<Piece>, chunk: seq<Item>, chunkSize: int, closed: seq<seq<Item>>,
                      read: seq<Item>, cls: BatchClass, limit: int, item: Item)
    requires Splitting(pieces, chunk, chunkSize, closed, read, cls, limit)
    ensures chunkSize >= 0
    ensures if chunk != [] && cls.envelope + chunkSize + (item.bytes + 1) > limit
            then Splitting(pieces + [Piece(Batch(cls, chunk), cls.envelope + chunkSize)],
                           [] + [item], 0 + (item.bytes + 1),
                           closed + [chunk], read + [item], cls, limit)
            else Splitting(pieces, chunk + [item], chunkSize + (item.bytes + 1), closed, read + [item], cls, limit)
  {
    hide Cutting;
    var fits := ChunkFits(cls.envelope, limit);
    ChunkGrows(chunk, item, cls.envelope, limit);
    ChunkGrows([], item, cls.envelope, limit);
    ChunkPiecesSnoc(cls, closed, chunk);
    if chunk != [] && cls.envelope + chunkSize + (item.bytes + 1) > limit {
      CutClose(closed, chunk, read, fits);
      assert (closed + [chunk])[|closed|] == chunk;
      CutGrow(closed + [chunk], [], read, item, fits);
    } else {
      CutGrow(closed, chunk, read, item, fits);
    }
  }

  lemma SplittingDone(pieces: seq<Piece>, chunk: seq<Item>, chunkSize: int, closed: seq<seq<Item>>,
                      m: Message, limit: int)
    requires m.Batch? && m.items != []
    requires Splitting(pieces, chunk, chunkSize, closed, m.items, m.cls, limit)
    ensures chunkSize >= 0
    ensures SplitPieces(m, limit) ==
              if chunk == [] then pieces else pieces + [Piece(Batch(m.cls, chunk), m.cls.envelope + chunkSize)]
  {
    CutDone(closed, chunk, m.items, ChunkFits(m.cls.envelope, limit));
    ChunkPiecesSnoc(m.cls, closed, chunk);
  }

  lemma ChunkPiecesSnoc(cls: BatchClass, chunks: seq<seq<Item>>, chunk: seq<Item>)
    ensures ChunkPieces(cls, chunks + [chunk]) == ChunkPieces(cls, chunks) + [ChunkPiece(cls, chunk)]
  {
    assert (chunks + [chunk])[..|chunks|] == chunks;
  }

  lemma ChunkGrows(chunk: seq<Item>, item: Item, envelope: nat, limit: int)
    ensures ChunkBytes([]) == 0 && ChunkBytes(chunk + [item]) == ChunkBytes(chunk) + item.bytes + 1
    ensures ChunkFits(envelope, limit)(chunk + [item]) <==>
            chunk == [] || envelope + ChunkBytes(chunk) + item.bytes + 1 <= limit
  {
    assert (chunk + [item])[..|chunk|] == chunk;
  }

  lemma {:induction false} ChunkBytesOfTail(chunk: seq<Item>)
    requires chunk != []
    ensures ChunkBytes(chunk[1..]) <= ChunkBytes(chunk)
  {
    var n := |chunk|;
    if n > 1 {
      assert chunk[1..][..n - 2] == chunk[..n - 1][1..];
      assert chunk[1..][n - 2] == chunk[n - 1];
      ChunkBytesOfTail(chunk[..n - 1]);
    }
  }

  lemma {:induction false} ChunkBytesOfStretch(chunk: seq<Item>, i: nat, j: nat)
    requires i <= j <= |chunk|
    ensures ChunkBytes(chunk[i..j]) <= ChunkBytes(chunk)
    decreases |chunk|
  {
    if i > 0 {
      SliceOfTail(chunk, i, j);
      ChunkBytesOfTail(chunk);
      ChunkBytesOfStretch(chunk[1..], i - 1, j - 1);
    } else if j < |chunk| {
      SliceOfInit(chunk, i, j);
      ChunkBytesOfStretch(chunk[..|chunk| - 1], i, j);
    } else {
      assert chunk[i..j] == chunk;
    }
  }

  lemma ChunksAreHereditary(envelope: nat, limit: int)
    ensures Hereditary(ChunkFits(envelope, limit)) && SinglesFit(ChunkFits(envelope, limit))
  {
    var fits := ChunkFits(envelope, limit);
    forall chunk: seq<Item>, i: nat, j: nat {:trigger fits(chunk), chunk[i..j]} | i < j <= |chunk| && fits(chunk)
      ensures fits(chunk[i..j])
    {
      ChunkBytesOfStretch(chunk, i, j);
    }
  }

  lemma {:induction false} ChunkPiecesShape(cls: BatchClass, chunks: seq<seq<Item>>)
    ensures |ChunkPieces(cls, chunks)| == |chunks|
    ensures forall k :: 0 <= k < |chunks| ==> ChunkPieces(cls, chunks)[k] == ChunkPiece(cls, chunks[k])
  {
    if chunks != [] {
      ChunkPiecesShape(cls, chunks[..|chunks| - 1]);
    }
  }

  /** Every piece of a split batch is a non-empty batch of the same class; a piece of two or
      more items keeps the limit, and its real size is one comma below the reckoned one. */
  lemma SplitKeepsLimit(m: Message, limit: int, k: nat)
    requires Splittable(m) && k < |SplitPieces(m, limit)|
    ensures var piece := SplitPieces(m, limit)[k];
            && piece.message.Batch? && piece.message.cls == m.cls && piece.message.items != []
            && piece.size == JsonSize(piece.message) + 1
            && (|piece.message.items| >= 2 ==> piece.size <= limit)
  {
    hide Greedy;
    var fits := ChunkFits(m.cls.envelope, limit);
    var chunks := Greedy(m.items, fits);
    ChunkPiecesShape(m.cls, chunks);
    ChunksAreHereditary(m.cls.envelope, limit);
    GreedyIsMaximalPartition(m.items, fits);
    assert chunks[k] != [] && fits(chunks[k]);
  }

  ghost function SizedPieces(messages: seq<Message>, limit: int): seq<Piece> {
    if messages == [] then [] else
      var m := messages[|messages| - 1];
      SizedPieces(messages[..|messages| - 1], limit) +
      if JsonSize(m) <= limit then [Piece(m, JsonSize(m))] else SplitPieces(m, limit)
  }

  /** A piece is over the limit only when there is nothing left to split. */
  predicate KeepsLimit(piece: Piece, limit: int) {
    piece.size <= limit || !piece.message.Batch? || |piece.message.items| <= 1
  }

  lemma SplitPiecesKeepLimit(m: Message, limit: int)
    ensures forall piece <- SplitPieces(m, limit) :: KeepsLimit(piece, limit)
  {
    hide Greedy;
    forall piece <- SplitPieces(m, limit) ensures KeepsLimit(piece, limit) {
      if Splittable(m) {
        var k :| 0 <= k < |SplitPieces(m, limit)| && SplitPieces(m, limit)[k] == piece;
        SplitKeepsLimit(m, limit, k);
      }
    }
  }

  /** Batches over the limit are split as far as they can be, and what is within the limit stays
      whole. */
  lemma {:induction false} PiecesKeepLimit(messages: seq<Message>, limit: int)
    ensures forall piece <- SizedPieces(messages, limit) :: KeepsLimit(piece, limit)
    ensures forall m <- messages :: JsonSize(m) <= limit ==> Piece(m, JsonSize(m)) in SizedPieces(messages, limit)
  {
    hide SplitPieces;
    if messages != [] {
      var init, m := messages[..|messages| - 1], messages[|messages| - 1];
      assert messages == init + [m];
      PiecesKeepLimit(init, limit);
      SplitPiecesKeepLimit(m, limit);
    }
  }

  method Sized(messages: seq<Message>, limit: int) returns (sized: seq<Piece>)
    ensures sized == SizedPieces(messages, limit)
    ensures forall piece <- sized :: piece.size <= limit || !piece.message.Batch? || |piece.message.items| <= 1
    ensures forall m <- messages :: JsonSize(m) <= limit ==> Piece(m, JsonSize(m)) in sized
  {
    sized := [];
    for i := 0 to |messages|
      invariant sized == SizedPieces(messages[..i], limit)
    {
      assert messages[..i + 1][..i] == messages[..i];
      var size := JsonSize(messages[i]);
      if size <= limit {
        sized := sized + [Piece(messages[i], size)];
      } else {
        var parts := SplitBatch(messages[i], limit);
        sized := sized + parts;
      }
    }
    assert messages[..|messages|] == messages;
    PiecesKeepLimit(messages, limit);
    assert forall piece <- sized :: KeepsLimit(piece, limit);
  }

  // --------------------------------------------------------- filling frames

  /** What the packer places, in order: the pieces of every section, and one piece-less
      token for a section without any.  `last` marks the end of a section. */
  datatype Token = Token(index: nat, header: Header, body: Option<Piece>, last: bool)

  predicate PieceTokens(tokens: seq<Token>, index: nat, header: Header, pieces: seq<Piece>) {
    && |tokens| == |pieces|
    && forall k :: 0 <= k < |tokens| ==> tokens[k] == Token(index, header, Some(pieces[k]), k == |pieces| - 1)
  }

  function SectionTokens(index: nat, section: Section, pieces: seq<Piece>): seq<Token> {
    if pieces == [] then [Token(index, section.header, None, true)]
    else seq(|pieces|, k requires 0 <= k < |pieces| =>
             Token(index, section.header, Some(pieces[k]), k == |pieces| - 1))
  }

  ghost function SectionPieces(section: Section, usable: int): seq<Piece> {
    SizedPieces(section.messages, usable - SectionOverhead(section.header))
  }

  ghost function Tokens(sections: seq<Section>, usable: int): seq<Token> {
    if sections == [] then [] else
      Tokens(sections[..|sections| - 1], usable) +
      SectionTokens(|sections| - 1, sections[|sections| - 1], SectionPieces(sections[|sections| - 1], usable))
  }

  lemma SectionTokensOfPieces(index: nat, section: Section, pieces: seq<Piece>)
    ensures |SectionTokens(index, section, pieces)| == if pieces == [] then 1 else |pieces|
    ensures pieces != [] ==> PieceTokens(SectionTokens(index, section, pieces), index, section.header, pieces)
  {
  }

  function WithSection(before: seq<Token>, index: nat, section: Section, pieces: seq<Piece>): seq<Token> {
    before + SectionTokens(index, section, pieces)
  }

  lemma TokensSnoc(sections: seq<Section>, i: nat, usable: int)
    requires i < |sections|
    ensures Tokens(sections[..i + 1], usable) ==
              WithSection(Tokens(sections[..i], usable), i, sections[i],
                          SizedPieces(sections[i].messages, usable - SectionOverhead(sections[i].header)))
  {
    hide SectionTokens, SizedPieces, SectionOverhead;
    assert sections[..i + 1][..i] == sections[..i];
    assert sections[..i + 1][|sections[..i + 1]| - 1] == sections[i];
  }

  function Size(body: Option<Piece>): nat {
    if body.Some? then body.value.size else 0
  }

  /** Whether the last token of `group` belongs to another section than the one before it. */
  predicate OpensEntry(group: seq<Token>)
    requires group != []
  {
    |group| == 1 || !SameRun(group[|group| - 2], group[|group| - 1])
  }

  predicate SameRun(t: Token, u: Token) {
    t.index == u.index && t.header == u.header
  }

  /** What a group is reckoned to use of a frame. */
  function Cost(group: seq<Token>): nat {
    if group == [] then 0 else
      var t := group[|group| - 1];
      Cost(group[..|group| - 1]) + Size(t.body) + if OpensEntry(group) then SectionOverhead(t.header) else 0
  }

  /** Every piece but the first token was placed within the budget. */
  predicate WithinBudget(group: seq<Token>, usable: int) {
    group == [] ||
    (WithinBudget(group[..|group| - 1], usable) &&
     (|group| == 1 || group[|group| - 1].body.None? || Cost(group) <= usable))
  }

  function FrameFits(usable: int): seq<Token> -> bool {
    (group: seq<Token>) => WithinBudget(group, usable)
  }

  function Messages(body: Option<Piece>): seq<Message> {
    if body.Some? then [body.value.message] else []
  }

  /** The entries a group of tokens is sent as: one for each run of tokens of a section. */
  function Render(group: seq<Token>): (entries: seq<Entry>)
    ensures group != [] ==> entries != []
  {
    if group == [] then [] else
      var before, t := Render(group[..|group| - 1]), group[|group| - 1];
      if OpensEntry(group) then before + [Entry(t.header, t.last, Messages(t.body))]
      else
        var e := before[|before| - 1];
        before[..|before| - 1] + [Entry(t.header, t.last, e.messages + Messages(t.body))]
  }

  lemma LastEntry(group: seq<Token>)
    requires group != []
    ensures Render(group)[|Render(group)| - 1].header == group[|group| - 1].header
    ensures Render(group)[|Render(group)| - 1].complete == group[|group| - 1].last
  {
  }

  function RenderFrames(groups: seq<seq<Token>>, pk: int, channelType: string): seq<Frame> {
    if groups == [] then []
    else RenderFrames(groups[..|groups| - 1], pk, channelType) +
         [Frame(pk, channelType, |groups| - 1, Render(groups[|groups| - 1]))]
  }

  ghost function FramesOf(sections: seq<Section>, pk: int, channelType: string, usable: int): seq<Frame> {
    RenderFrames(Greedy(Tokens(sections, usable), FrameFits(usable)), pk, channelType)
  }

  predicate SameSection(run: seq<Token>, index: nat, header: Header) {
    forall k :: 0 <= k < |run| ==> run[k].index == index && run[k].header == header
  }

  /** `group` does not end in the section numbered `index`. */
  predicate Foreign(group: seq<Token>, index: nat) {
    group == [] || group[|group| - 1].index != index
  }

  lemma RenderForeign(group: seq<Token>, t: Token)
    requires Foreign(group, t.index)
    ensures Render(group + [t]) == Render(group) + [Entry(t.header, t.last, Messages(t.body))]
    ensures Cost(group + [t]) == Cost(group) + SectionOverhead(t.header) + Size(t.body)
  {
    var all := group + [t];
    assert all[..|all| - 1] == group && all[|all| - 1] == t;
    assert OpensEntry(all);
  }

  lemma RenderSame(group: seq<Token>, t: Token)
    requires group != [] && SameRun(group[|group| - 1], t)
    ensures var before := Render(group);
            Render(group + [t]) == before[..|before| - 1] +
              [Entry(t.header, t.last, before[|before| - 1].messages + Messages(t.body))]
    ensures Cost(group + [t]) == Cost(group) + Size(t.body)
  {
    var all := group + [t];
    assert all[..|all| - 1] == group && all[|all| - 1] == t;
    assert all[|all| - 2] == group[|group| - 1];
    assert !OpensEntry(all);
  }

  lemma RunSnoc(run: seq<Token>, t: Token)
    ensures RunMessages(run + [t]) == RunMessages(run) + Messages(t.body)
    ensures RunSize(run + [t]) == RunSize(run) + Size(t.body)
  {
    assert (run + [t])[..|run|] == run;
  }

  /** A run of tokens of one section, placed after tokens of other sections, is one entry. */
  lemma {:induction false} RenderRun(group: seq<Token>, run: seq<Token>, index: nat, header: Header)
    requires run != [] && SameSection(run, index, header) && Foreign(group, index)
    ensures Render(group + run) == Render(group) + [Entry(header, run[|run| - 1].last, RunMessages(run))]
    ensures Cost(group + run) == Cost(group) + SectionOverhead(header) + RunSize(run)
  {
    var init, t := run[..|run| - 1], run[|run| - 1];
    assert group + run == (group + init) + [t];
    assert run == init + [t];
    var entry := Entry(header, t.last, RunMessages(run));
    RunSnoc(init, t);
    if init == [] {
      assert group + init == group;
      RenderForeign(group, t);
      assert entry.messages == Messages(t.body);
      assert Render(group + run) == Render(group) + [entry];
    } else {
      hide Render, Cost, RunSize;
      RenderRun(group, init, index, header);
      RenderSame(group + init, t);
      var before := Render(group + init);
      assert before[..|before| - 1] == Render(group);
      assert entry.messages == before[|before| - 1].messages + Messages(t.body);
      assert Render(group + run) == Render(group) + [entry];
    }
  }

  function RunMessages(run: seq<Token>): seq<Message> {
    if run == [] then [] else RunMessages(run[..|run| - 1]) + Messages(run[|run| - 1].body)
  }

  function RunSize(run: seq<Token>): nat {
    if run == [] then 0 else RunSize(run[..|run| - 1]) + Size(run[|run| - 1].body)
  }

  lemma BudgetSnoc(group: seq<Token>, t: Token, usable: int)
    ensures WithinBudget(group + [t], usable) <==>
            WithinBudget(group, usable) && (group == [] || t.body.None? || Cost(group + [t]) <= usable)
    ensures FrameFits(usable)(group + [t]) == WithinBudget(group + [t], usable)
  {
    assert (group + [t])[..|group|] == group;
  }

  lemma RenderFramesSnoc(groups: seq<seq<Token>>, group: seq<Token>, pk: int, channelType: string)
    ensures RenderFrames(groups + [group], pk, channelType) ==
              RenderFrames(groups, pk, channelType) + [Frame(pk, channelType, |groups|, Render(group))]
  {
    assert (groups + [group])[..|groups|] == groups;
  }

  /** One more token in the frame being filled. */
  lemma GrowFrame(closed: seq<seq<Token>>, group: seq<Token>, read: seq<Token>, t: Token, usable: int)
    requires WithinBudget(group, usable) && Cutting(closed, group, read, FrameFits(usable))
    requires group != [] ==> t.body.None? || Cost(group + [t]) <= usable
    requires group == [] && closed != [] ==> !FrameFits(usable)(closed[|closed| - 1] + [t])
    ensures WithinBudget(group + [t], usable) && Cutting(closed, group + [t], read + [t], FrameFits(usable))
  {
    BudgetSnoc(group, t, usable);
    CutGrow(closed, group, read, t, FrameFits(usable));
  }

  /** What a frame costs when `t` joins the run that was placed after `open`. */
  lemma CostOfPlaced(open: seq<Token>, run: seq<Token>, t: Token)
    ensures SameSection(run, t.index, t.header) && Foreign(open, t.index) ==>
              Cost((open + run) + [t]) == Cost(open) + SectionOverhead(t.header) + RunSize(run) + Size(t.body)
  {
    hide Cost, RunSize, RunMessages, Render;
    if SameSection(run, t.index, t.header) && Foreign(open, t.index) {
      assert open + (run + [t]) == (open + run) + [t];
      RunSnoc(run, t);
      RenderRun(open, run + [t], t.index, t.header);
    }
  }

  function SizeSum(pieces: seq<Piece>): nat {
    if pieces == [] then 0 else SizeSum(pieces[..|pieces| - 1]) + pieces[|pieces| - 1].size
  }

  function MessagesOf(pieces: seq<Piece>): seq<Message> {
    if pieces == [] then [] else MessagesOf(pieces[..|pieces| - 1]) + [pieces[|pieces| - 1].message]
  }

  lemma MessagesOfNone()
    ensures MessagesOf([]) == [] && SizeSum([]) == 0
  {
  }

  /** Every prefix of `taken` fits into a frame in which `used` is taken, except that the
      first piece of a frame needs no room. */
  ghost predicate Fillable(taken: seq<Piece>, started: bool, used: nat, usable: int) {
    forall k :: 0 < k <= |taken| && (started || 1 < k) ==> used + SizeSum(taken[..k]) <= usable
  }

  /** The innermost loop: as many pieces of the section as the frame still takes.  An empty
      frame always takes one, however big. */
  method FillHead(pieces: seq<Piece>, first: nat, started: bool, used: nat, overhead: nat, usable: int)
    returns (head: seq<Message>, headSize: nat, index: nat)
    requires first <= |pieces|
    ensures first <= index <= |pieces| && Fillable(pieces[first..index], started, used + overhead, usable)
    ensures head == MessagesOf(pieces[first..index]) && headSize == SizeSum(pieces[first..index])
    ensures head == [] <==> first == index
    ensures index < |pieces| ==> (started || first < index) && used + overhead + headSize + pieces[index].size > usable
  {
    hide *;
    head, headSize, index := [], 0, first;
    ghost var taken := pieces[first..first];
    NothingTaken(taken, started, used + overhead, usable);
    while index < |pieces|
      invariant first <= index <= |pieces| && taken == pieces[first..index] && |head| == |taken|
      invariant head == MessagesOf(taken) && headSize == SizeSum(taken)
      invariant Fillable(taken, started, used + overhead, usable)
    {
      var Piece(message, size) := pieces[index];
      if (started || head != []) && used + overhead + headSize + size > usable {
        break;
      }
      TakeOne(taken, pieces[index], started, used + overhead, usable);
      assert pieces[first..index + 1] == taken + [pieces[index]];
      head := head + [message];
      headSize := headSize + size;
      index, taken := index + 1, taken + [pieces[index]];
    }
  }

  lemma NothingTaken(taken: seq<Piece>, started: bool, used: nat, usable: int)
    requires taken == []
    ensures MessagesOf(taken) == [] && SizeSum(taken) == 0 && Fillable(taken, started, used, usable)
  {
  }

  lemma TakeOne(taken: seq<Piece>, piece: Piece, started: bool, used: nat, usable: int)
    requires Fillable(taken, started, used, usable)
    requires started || taken != [] ==> used + SizeSum(taken) + piece.size <= usable
    ensures MessagesOf(taken + [piece]) == MessagesOf(taken) + [piece.message]
    ensures SizeSum(taken + [piece]) == SizeSum(taken) + piece.size
    ensures Fillable(taken + [piece], started, used, usable)
  {
    var all := taken + [piece];
    assert all[..|taken|] == taken;
    forall k | 0 < k <= |all| && (started || 1 < k) ensures used + SizeSum(all[..k]) <= usable {
      if k < |all| {
        assert all[..k] == taken[..k];
      } else {
        assert all[..k] == all;
      }
    }
  }

  lemma {:induction false} RunOfPieces(run: seq<Token>, taken: seq<Piece>)
    requires |run| == |taken| && forall k :: 0 <= k < |run| ==> run[k].body == Some(taken[k])
    ensures RunSize(run) == SizeSum(taken) && RunMessages(run) == MessagesOf(taken)
  {
    if run != [] {
      RunOfPieces(run[..|run| - 1], taken[..|run| - 1]);
    }
  }

  /** The pieces one round of the loop puts into the frame are those the greedy cut puts there. */
  lemma {:induction false} FillIsGreedy(closed: seq<seq<Token>>, open: seq<Token>, read: seq<Token>, run: seq<Token>,
                                        taken: seq<Piece>, i: nat, header: Header, usable: int)
    requires |run| == |taken| && forall k :: 0 <= k < |run| ==> run[k].body == Some(taken[k])
    requires SameSection(run, i, header) && Foreign(open, i) && WithinBudget(open, usable)
    requires Cutting(closed, open, read, FrameFits(usable))
    requires Fillable(taken, open != [], Cost(open) + SectionOverhead(header), usable)
    requires open == [] && closed != [] && run != [] ==> !FrameFits(usable)(closed[|closed| - 1] + [run[0]])
    ensures WithinBudget(open + run, usable) && Cutting(closed, open + run, read + run, FrameFits(usable))
  {
    hide Cutting;
    if run == [] {
      assert open + run == open && read + run == read;
    } else {
      var n := |run| - 1;
      var init, t := run[..n], run[n];
      assert run == init + [t];
      assert open + run == (open + init) + [t] && read + run == (read + init) + [t];
      FillablePrefix(taken, open != [], Cost(open) + SectionOverhead(header), usable);
      RunOfPieces(init, taken[..n]);
      CostOfPlaced(open, init, t);
      FillIsGreedy(closed, open, read, init, taken[..n], i, header, usable);
      GrowFrame(closed, open + init, read + init, t, usable);
    }
  }

  lemma FillablePrefix(taken: seq<Piece>, started: bool, used: nat, usable: int)
    requires taken != [] && Fillable(taken, started, used, usable)
    ensures Fillable(taken[..|taken| - 1], started, used, usable)
    ensures started || 1 < |taken| ==> used + SizeSum(taken[..|taken| - 1]) + taken[|taken| - 1].size <= usable
  {
    assert taken[..|taken|] == taken;
    var init := taken[..|taken| - 1];
    forall k | 0 < k <= |init| && (started || 1 < k) ensures used + SizeSum(init[..k]) <= usable {
      assert init[..k] == taken[..k];
    }
  }

  /** The round of the loop that places `pieces[first..index]` of section `i`, as tokens. */
  lemma Round(closed: seq<seq<Token>>, open: seq<Token>, before: seq<Token>, i: nat, section: Section,
              pieces: seq<Piece>, first: nat, index: nat, usable: int)
    returns (run: seq<Token>)
    requires first <= index <= |pieces| && (first == |pieces| ==> pieces == [])
    requires Foreign(open, i) && WithinBudget(open, usable)
    requires Fillable(pieces[first..index], open != [], Cost(open) + SectionOverhead(section.header), usable)
    requires index < |pieces| ==>
               (open != [] || first < index) &&
               Cost(open) + SectionOverhead(section.header) + SizeSum(pieces[first..index]) +
               pieces[index].size > usable
    requires var tokens := SectionTokens(i, section, pieces);
             && Cutting(closed, open, before + tokens[..first], FrameFits(usable))
             && (open == [] && closed != [] ==>
                   first < |pieces| && !FrameFits(usable)(closed[|closed| - 1] + [tokens[first]]))
    ensures var tokens := SectionTokens(i, section, pieces);
            && WithinBudget(open + run, usable)
            && Cutting(closed, open + run, before + (if index == |pieces| then tokens else tokens[..index]),
                       FrameFits(usable))
            && (index < |pieces| ==> open + run != [] && !FrameFits(usable)((open + run) + [tokens[index]]))
    ensures run == [] <==> first == index && pieces != []
    ensures run == [] ==> open + run == open
    ensures run != [] ==>
              Render(open + run) == Render(open) +
                                    [Entry(section.header, index == |pieces|, MessagesOf(pieces[first..index]))]
    ensures run != [] ==>
              Cost(open + run) == Cost(open) + SectionOverhead(section.header) + SizeSum(pieces[first..index])
    ensures run != [] ==> run[|run| - 1].index == i
  {
    hide Cutting, WithinBudget, Cost, Render, Fillable, SizeSum, MessagesOf, FrameFits, SectionTokens;
    var tokens := SectionTokens(i, section, pieces);
    SectionTokensOfPieces(i, section, pieces);
    assert before + tokens[..0] == before;
    if pieces == [] {
      run := tokens;
      MessagesOfNone();
      EmptyRound(closed, open, before, i, section, usable);
    } else {
      run := tokens[first..index];
      PieceRound(closed, open, before, tokens, i, section.header, pieces, first, index, usable);
      assert index == |pieces| ==> tokens == tokens[..index];
      assert run == [] ==> open + run == open;
    }
  }

  lemma EmptyRound(closed: seq<seq<Token>>, open: seq<Token>, before: seq<Token>, i: nat, section: Section, usable: int)
    requires Foreign(open, i) && WithinBudget(open, usable) && (open == [] ==> closed == [])
    requires Cutting(closed, open, before, FrameFits(usable))
    ensures var tokens := SectionTokens(i, section, []);
            && WithinBudget(open + tokens, usable)
            && Cutting(closed, open + tokens, before + tokens, FrameFits(usable))
            && |tokens| == 1 && tokens[0].index == i
            && Render(open + tokens) == Render(open) + [Entry(section.header, true, [])]
            && Cost(open + tokens) == Cost(open) + SectionOverhead(section.header)
  {
    hide Cutting, WithinBudget, Cost, Render;
    var t := Token(i, section.header, None, true);
    assert SectionTokens(i, section, []) == [t];
    RenderForeign(open, t);
    GrowFrame(closed, open, before, t, usable);
  }

  lemma PieceRound(closed: seq<seq<Token>>, open: seq<Token>, before: seq<Token>, tokens: seq<Token>, i: nat,
                   header: Header, pieces: seq<Piece>, first: nat, index: nat, usable: int)
    requires first <= index <= |pieces| && PieceTokens(tokens, i, header, pieces)
    requires Foreign(open, i) && WithinBudget(open, usable)
    requires Fillable(pieces[first..index], open != [], Cost(open) + SectionOverhead(header), usable)
    requires index < |pieces| ==>
               (open != [] || first < index) &&
               Cost(open) + SectionOverhead(header) + SizeSum(pieces[first..index]) + pieces[index].size > usable
    requires Cutting(closed, open, before + tokens[..first], FrameFits(usable))
    requires open == [] && closed != [] && first < |pieces| ==>
               !FrameFits(usable)(closed[|closed| - 1] + [tokens[first]])
    ensures WithinBudget(open + tokens[first..index], usable)
    ensures Cutting(closed, open + tokens[first..index], before + tokens[..index], FrameFits(usable))
    ensures index < |pieces| ==> !FrameFits(usable)((open + tokens[first..index]) + [tokens[index]])
    ensures first < index ==>
              && Render(open + tokens[first..index]) ==
                   Render(open) + [Entry(header, index == |pieces|, MessagesOf(pieces[first..index]))]
              && Cost(open + tokens[first..index]) ==
                   Cost(open) + SectionOverhead(header) + SizeSum(pieces[first..index])
  {
    hide Cutting, WithinBudget, Cost, Render, RunSize, RunMessages, SizeSum, MessagesOf;
    var run, taken := tokens[first..index], pieces[first..index];
    assert before + tokens[..index] == (before + tokens[..first]) + run;
    RunOfPieces(run, taken);
    if first < index {
      RenderRun(open, run, i, header);
    }
    FillIsGreedy(closed, open, before + tokens[..first], run, taken, i, header, usable);
    if index < |pieces| {
      CostOfPlaced(open, run, tokens[index]);
      BudgetSnoc(open + run, tokens[index], usable);
    }
  }

  /** The state of the packing loops: `frames` were sent and hold the groups `closed`;
      `packed` is the frame being filled and holds `open`; `read` was placed so far. */
  ghost predicate Packing(frames: seq<Frame>, packed: seq<Entry>, used: nat,
                          closed: seq<seq<Token>>, open: seq<Token>, read: seq<Token>,
                          pk: int, channelType: string, usable: int)
  {
    && frames == RenderFrames(closed, pk, channelType)
    && packed == Render(open) && used == Cost(open) && WithinBudget(open, usable)
    && (packed == [] <==> open == [])
    && Cutting(closed, open, read, FrameFits(usable))
  }

  lemma PackingStart(pk: int, channelType: string, usable: int)
    ensures Packing([], [], 0, [], [], Tokens([], usable), pk, channelType, usable) && Foreign([], 0)
  {
    CutStart(FrameFits(usable));
  }

  lemma PackingDone(frames: seq<Frame>, packed: seq<Entry>, used: nat, closed: seq<seq<Token>>, open: seq<Token>,
                    sections: seq<Section>, pk: int, channelType: string, usable: int)
    requires Packing(frames, packed, used, closed, open, Tokens(sections, usable), pk, channelType, usable)
    ensures FramesOf(sections, pk, channelType, usable) ==
              if packed == [] then frames else frames + [Frame(pk, channelType, |closed|, packed)]
  {
    hide Render, Cost, WithinBudget, Tokens;
    CutDone(closed, open, Tokens(sections, usable), FrameFits(usable));
    RenderFramesSnoc(closed, open, pk, channelType);
  }

  /** Sending the frame: the open group is closed. */
  lemma Flush(frames: seq<Frame>, packed: seq<Entry>, used: nat, closed: seq<seq<Token>>, open: seq<Token>,
              read: seq<Token>, pk: int, channelType: string, usable: int)
    requires Packing(frames, packed, used, closed, open, read, pk, channelType, usable) && open != []
    ensures Packing(frames + [Frame(pk, channelType, |closed|, packed)], [], 0, closed + [open], [], read,
                    pk, channelType, usable)
    ensures (closed + [open])[|closed + [open]| - 1] == open
  {
    RenderFramesSnoc(closed, open, pk, channelType);
  }

  /** Filling the frame: one round of the loop. */
  lemma Fill(frames: seq<Frame>, packed: seq<Entry>, used: nat, closed: seq<seq<Token>>, open: seq<Token>,
             before: seq<Token>, pk: int, channelType: string, usable: int,
             i: nat, section: Section, pieces: seq<Piece>, first: nat, index: nat)
    returns (run: seq<Token>)
    requires first <= index <= |pieces| && (first == |pieces| ==> pieces == []) && Foreign(open, i)
    requires Fillable(pieces[first..index], packed != [], used + SectionOverhead(section.header), usable)
    requires index < |pieces| ==>
               (packed != [] || first < index) &&
               used + SectionOverhead(section.header) + SizeSum(pieces[first..index]) + pieces[index].size > usable
    requires var tokens := SectionTokens(i, section, pieces);
             && Packing(frames, packed, used, closed, open, before + tokens[..first], pk, channelType, usable)
             && (open == [] && closed != [] ==>
                   first < |pieces| && !FrameFits(usable)(closed[|closed| - 1] + [tokens[first]]))
    ensures var tokens := SectionTokens(i, section, pieces);
            var read := before + if index == |pieces| then tokens else tokens[..index];
            && (first == index && pieces != [] ==>
                  run == [] && Packing(frames, packed, used, closed, open + run, read, pk, channelType, usable))
            && (first < index || pieces == [] ==>
                  Packing(frames, packed + [Entry(section.header, index == |pieces|, MessagesOf(pieces[first..index]))],
                          used + SectionOverhead(section.header) + SizeSum(pieces[first..index]),
                          closed, open + run, read, pk, channelType, usable)
                  && open + run != [] && (open + run)[|open + run| - 1].index == i)
            && (index < |pieces| ==> open + run != [] && !FrameFits(usable)((open + run) + [tokens[index]]))
  {
    hide Cutting, WithinBudget, Cost, Render, RenderFrames, SectionTokens, Fillable, SizeSum, MessagesOf;
    run := Round(closed, open, before, i, section, pieces, first, index, usable);
  }

  /** The loop over the pieces of one section. */
  method PackSection(section: Section, pieces: seq<Piece>, pk: int, channelType: string, usable: int,
                     sent: seq<Frame>, number: nat, packing: seq<Entry>, taken: nat,
                     ghost closedBefore: seq<seq<Token>>, ghost openBefore: seq<Token>,
                     ghost before: seq<Token>, ghost i: nat)
    returns (frames: seq<Frame>, seqNo: nat, packed: seq<Entry>, used: nat,
             ghost closed: seq<seq<Token>>, ghost open: seq<Token>)
    requires number == |closedBefore| && Foreign(openBefore, i) && (openBefore == [] ==> closedBefore == [])
    requires Packing(sent, packing, taken, closedBefore, openBefore, before, pk, channelType, usable)
    ensures seqNo == |closed| && open != [] && Foreign(open, i + 1)
    ensures Packing(frames, packed, used, closed, open, WithSection(before, i, section, pieces),
                    pk, channelType, usable)
  {
    hide Packing, FrameFits, SectionTokens, Fillable, SizeSum, MessagesOf, Utf8Length;
    frames, seqNo, packed, used, closed, open := sent, number, packing, taken, closedBefore, openBefore;
    var overhead := SectionOverhead(section.header);
    ghost var tokens := SectionTokens(i, section, pieces);
    SectionTokensOfPieces(i, section, pieces);
    var index := 0;
    assert before + tokens[..0] == before;
    while true
      invariant 0 <= index <= |pieces| && (index == |pieces| ==> pieces == [])
      invariant seqNo == |closed| && Foreign(open, i)
      invariant open == [] && closed != [] ==>
                  index < |pieces| && !FrameFits(usable)(closed[|closed| - 1] + [tokens[index]])
      invariant Packing(frames, packed, used, closed, open, before + tokens[..index], pk, channelType, usable)
      decreases |pieces| - index, |open|
    {
      ghost var first := index;
      var head, headSize;
      head, headSize, index := FillHead(pieces, index, packed != [], used, overhead, usable);
      var done := index >= |pieces|;
      ghost var run := Fill(frames, packed, used, closed, open, before, pk, channelType, usable,
                            i, section, pieces, first, index);
      if head != [] || done {
        packed := packed + [Entry(section.header, done, head)];
        used := used + overhead + headSize;
      }
      open := open + run;
      if done {
        break;
      }
      Flush(frames, packed, used, closed, open, before + tokens[..index], pk, channelType, usable);
      frames := frames + [Frame(pk, channelType, seqNo, packed)];
      closed := closed + [open];
      seqNo := seqNo + 1;
      packed, used, open := [], 0, [];
    }
  }

  method IterBundles(sections: seq<Section>, pk: int, channelType: string, budget: Option<int>, configured: int)
    returns (frames: seq<Frame>)
    ensures frames == FramesOf(sections, pk, channelType, Usable(budget, configured))
  {
    hide *;
    var usable := Usable(budget, configured);
    ghost var closed: seq<seq<Token>>, open: seq<Token> := [], [];
    frames := [];
    var seqNo, packed: seq<Entry>, used := 0, [], 0;
    PackingStart(pk, channelType, usable);
    assert sections[..0] == [];
    for i := 0 to |sections|
      invariant seqNo == |closed| && Foreign(open, i) && (open == [] ==> closed == [])
      invariant Packing(frames, packed, used, closed, open, Tokens(sections[..i], usable), pk, channelType, usable)
    {
      var pieces := Sized(sections[i].messages, usable - SectionOverhead(sections[i].header));
      TokensSnoc(sections, i, usable);
      frames, seqNo, packed, used, closed, open :=
        PackSection(sections[i], pieces, pk, channelType, usable, frames, seqNo, packed, used,
                    closed, open, Tokens(sections[..i], usable), i);
    }
    assert sections[..|sections|] == sections;
    PackingDone(frames, packed, used, closed, open, sections, pk, channelType, usable);
    if packed != [] {
      frames := frames + [Frame(pk, channelType, seqNo, packed)];
    }
  }
}
