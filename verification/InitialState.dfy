/** Building the stream a subscriber gets: the collectors fill an `AppState`, whose sections
    are packed into frames (voteit/messaging/state.py, voteit/messaging/jobs.py). */
module InitialState {
  import opened Collections
  import opened Bundle
  import opened BundleRoundTrip

  // ------------------------------------------------------------- collectors

  /** What a call into a collector does: it returns, or it raises, and then either the
      database connection is still usable or the whole transaction is lost. */
  datatype Outcome = Returns | Raises(needsRollback: bool)

  /** A collector: its `applicable()` answer, the messages `collect()` appends before it ends,
      and how it ends. */
  datatype Collector = Collector(name: string, wanted: bool, applicable: Outcome,
                                 output: seq<Message>, collect: Outcome)

  /** Accumulator for the messages of an initial state, flat and by section. */
  class AppState {
    var data: seq<Message>
    var sections: seq<Section>
    var current: Option<nat>

    ghost predicate Valid() reads this {
      current.Some? ==> current.value < |sections|
    }

    constructor ()
      ensures Valid() && data == [] && sections == [] && current == None
    {
      data, sections, current := [], [], None;
    }

    /** Opens a section; one cannot be opened inside another. */
    method Open(name: string) returns (ok: bool)
      requires Valid()
      modifies this
      ensures Valid() && ok == (old(current) == None) && data == old(data)
      ensures ok ==> sections == old(sections) + [Section(Header(name, false), [])] && current == Some(|old(sections)|)
      ensures !ok ==> sections == old(sections) && current == old(current)
    {
      if current.Some? {
        return false;
      }
      sections := sections + [Section(Header(name, false), [])];
      current := Some(|sections| - 1);
      return true;
    }

    method Close()
      modifies this`current
      ensures Valid() && current == None
    {
      current := None;
    }

    method Append(m: Message)
      requires Valid()
      modifies this`data, this`sections
      ensures Valid() && data == old(data) + [m]
      ensures sections == if current == None then old(sections) else
                          var i := current.value;
                          old(sections)[i := old(sections)[i].(messages := old(sections)[i].messages + [m])]
    {
      data := data + [m];
      if current.Some? {
        var i := current.value;
        sections := sections[i := sections[i].(messages := sections[i].messages + [m])];
      }
    }

    /** One batch message for many payloads, or nothing if there are none. */
    method AddBatch(cls: BatchClass, items: seq<Item>)
      requires Valid()
      modifies this`data, this`sections
      ensures Valid()
      ensures items == [] ==> data == old(data) && sections == old(sections)
      ensures items != [] ==> data == old(data) + [Batch(cls, items)]
      ensures items != [] ==>
                sections == if current == None then old(sections) else
                            var i := current.value;
                            var was := old(sections)[i];
                            old(sections)[i := was.(messages := was.messages + [Batch(cls, items)])]
    {
      if items != [] {
        Append(Batch(cls, items));
      }
    }

    method MarkFailed(i: nat)
      requires Valid() && i < |sections|
      modifies this`sections
      ensures var was := old(sections)[i];
              Valid() && sections == old(sections)[i := was.(header := Header(was.header.name, true))]
    {
      sections := sections[i := sections[i].(header := Header(sections[i].header.name, true))];
    }
  }

  /** The section a collector contributes: whatever it built, marked if it raised. */
  function SectionOf(c: Collector): Section {
    Section(Header(c.name, c.collect.Raises?), c.output)
  }

  predicate LosesTransaction(o: Outcome) {
    o.Raises? && o.needsRollback
  }

  /** Runs one collector, keeping a failure inside its own section unless the database
      transaction is lost, which `lost` reports. */
  method Collect(collector: Collector, state: AppState) returns (lost: bool)
    requires state.Valid() && state.current == None
    modifies state
    ensures state.Valid() && state.current == None
    ensures lost == LosesTransaction(collector.collect)
    ensures !lost ==> state.sections == old(state.sections) + [SectionOf(collector)]
    ensures state.data == old(state.data) + collector.output
  {
    var i := |state.sections|;
    var _ := state.Open(collector.name);
    ghost var before := old(state.sections);
    for k := 0 to |collector.output|
      invariant state.Valid() && state.current == Some(i)
      invariant state.sections == before + [Section(Header(collector.name, false), collector.output[..k])]
      invariant state.data == old(state.data) + collector.output[..k]
    {
      state.Append(collector.output[k]);
      assert collector.output[..k + 1] == collector.output[..k] + [collector.output[k]];
    }
    assert collector.output[..|collector.output|] == collector.output;
    lost := false;
    if collector.collect.Raises? {
      if collector.collect.needsRollback {
        lost := true;
      } else {
        state.MarkFailed(i);
      }
    }
    state.Close();
  }

  // ------------------------------------------------------------- the stream

  datatype ServerMessage =
    | Subscribed(collectors: seq<string>)
    | State(frame: Frame)
    | StateComplete
    | SubscribeError

  datatype Built = Stream(messages: seq<ServerMessage>) | TransactionLost

  /** Whether the channel admits the user; asking may find that the object is gone. */
  datatype Permission = Allowed | Denied | Gone

  predicate Takes(c: Collector) {
    c.applicable.Returns? && c.wanted
  }

  function Taken(collectors: seq<Collector>): seq<Collector> {
    if collectors == [] then [] else
      var c := collectors[|collectors| - 1];
      Taken(collectors[..|collectors| - 1]) + if Takes(c) then [c] else []
  }

  function Names(collectors: seq<Collector>): seq<string> {
    seq(|collectors|, k requires 0 <= k < |collectors| => collectors[k].name)
  }

  function SectionsOf(collectors: seq<Collector>): seq<Section> {
    seq(|collectors|, k requires 0 <= k < |collectors| => SectionOf(collectors[k]))
  }

  function States(frames: seq<Frame>): seq<ServerMessage> {
    seq(|frames|, k requires 0 <= k < |frames| => State(frames[k]))
  }

  predicate SomeLoses(collectors: seq<Collector>) {
    (exists c <- collectors :: LosesTransaction(c.applicable)) ||
    (exists c <- Taken(collectors) :: LosesTransaction(c.collect))
  }

  ghost function StreamOf(collectors: seq<Collector>, pk: int, channelType: string, usable: int): seq<ServerMessage> {
    [Subscribed(Names(Taken(collectors)))] +
    States(FramesOf(SectionsOf(Taken(collectors)), pk, channelType, usable)) + [StateComplete]
  }

  lemma {:induction false} TakenSubset(collectors: seq<Collector>)
    ensures forall c <- Taken(collectors) :: c in collectors && Takes(c)
  {
    if collectors != [] {
      TakenSubset(collectors[..|collectors| - 1]);
    }
  }

  lemma {:induction false} TakenAppend(a: seq<Collector>, b: seq<Collector>)
    ensures Taken(a + b) == Taken(a) + Taken(b)
  {
    if b == [] {
      assert a + b == a;
    } else {
      assert (a + b)[..|a + b| - 1] == a + b[..|b| - 1];
      TakenAppend(a, b[..|b| - 1]);
    }
  }

  /** The collectors that contribute are exactly those that say so when asked. */
  lemma {:induction false} TakenIsExact(collectors: seq<Collector>)
    ensures forall c: Collector :: c in Taken(collectors) <==> c in collectors && c.wanted && c.applicable == Returns
  {
    if collectors != [] {
      var init, last := collectors[..|collectors| - 1], collectors[|collectors| - 1];
      assert collectors == init + [last];
      TakenIsExact(init);
    }
  }

  /** And they keep their order. */
  lemma TakenInOrder(before: seq<Collector>, c: Collector, after: seq<Collector>)
    requires c.wanted && c.applicable == Returns
    ensures Taken(before + [c] + after) == Taken(before) + [c] + Taken(after)
  {
    hide Taken;
    TakenAppend(before + [c], after);
    TakenAppend(before, [c]);
    TakenOne(c);
  }

  lemma TakenOne(c: Collector)
    ensures Taken([c]) == if Takes(c) then [c] else []
  {
    assert [c][..0] == [];
  }

  /** Which collectors contribute; `lost` if asking one of them lost the transaction. */
  method Applicable(collectors: seq<Collector>) returns (taken: seq<Collector>, lost: bool)
    ensures lost <==> exists c <- collectors :: LosesTransaction(c.applicable)
    ensures !lost ==> taken == Taken(collectors)
  {
    taken, lost := [], false;
    for i := 0 to |collectors|
      invariant taken == Taken(collectors[..i])
      invariant forall k :: 0 <= k < i ==> !LosesTransaction(collectors[k].applicable)
    {
      var c := collectors[i];
      assert collectors[..i + 1][..i] == collectors[..i];
      if LosesTransaction(c.applicable) {
        lost := true;
        assert c in collectors;
        return;
      }
      if c.applicable.Returns? && c.wanted {
        taken := taken + [c];
      }
    }
    assert collectors[..|collectors|] == collectors;
  }

  /** Checks permission and builds the whole stream. */
  method BuildSubscription(permission: Permission, collectors: seq<Collector>, pk: int, channelType: string,
                           configured: int)
    returns (built: Built)
    ensures permission != Allowed ==> built == Stream([SubscribeError])
    ensures permission == Allowed && SomeLoses(collectors) ==> built == TransactionLost
    ensures permission == Allowed && !SomeLoses(collectors) ==>
              built == Stream(StreamOf(collectors, pk, channelType, Usable(None, configured)))
  {
    if permission != Allowed {
      return Stream([SubscribeError]);
    }
    var taken, lost := Applicable(collectors);
    if lost {
      return TransactionLost;
    }
    var state := new AppState();
    for i := 0 to |taken|
      invariant state.Valid() && state.current == None && fresh(state)
      invariant state.sections == SectionsOf(taken[..i])
      invariant forall k :: 0 <= k < i ==> !LosesTransaction(taken[k].collect)
    {
      lost := Collect(taken[i], state);
      if lost {
        assert taken[i] in taken;
        return TransactionLost;
      }
      assert SectionsOf(taken[..i + 1]) == SectionsOf(taken[..i]) + [SectionOf(taken[i])];
    }
    assert taken[..|taken|] == taken;
    var frames := IterBundles(state.sections, pk, channelType, None, configured);
    return Stream([Subscribed(Names(taken))] + States(frames) + [StateComplete]);
  }

  // ----------------------------------------------------- what the client learns

  function FramesIn(messages: seq<ServerMessage>): seq<Frame> {
    if messages == [] then [] else
      FramesIn(messages[..|messages| - 1]) +
      if messages[|messages| - 1].State? then [messages[|messages| - 1].frame] else []
  }

  lemma {:induction false} FramesInStates(before: seq<ServerMessage>, frames: seq<Frame>)
    ensures FramesIn(before + States(frames)) == FramesIn(before) + frames
  {
    if frames == [] {
      assert before + States(frames) == before;
    } else {
      var init, f := frames[..|frames| - 1], frames[|frames| - 1];
      var all := before + States(frames);
      assert all[..|all| - 1] == before + States(init);
      assert frames == init + [f];
      FramesInStates(before, init);
    }
  }

  lemma FramesInStream(names: seq<string>, frames: seq<Frame>)
    ensures FramesIn([Subscribed(names)] + States(frames) + [StateComplete]) == frames
  {
    var head: seq<ServerMessage> := [Subscribed(names)];
    assert head[..0] == [];
    assert FramesIn(head) == [];
    FramesInStates(head, frames);
    assert (head + States(frames) + [StateComplete])[..1 + |frames|] == head + States(frames);
  }

  /** A client that follows the stream is told up front exactly the names of the sections it
      goes on to receive, in that order, before it is told that the state is complete.  Each
      section says what its collector built, and is flagged exactly if the collector raised. */
  lemma StreamKeepsItsPromise(collectors: seq<Collector>, pk: int, channelType: string, usable: int)
    ensures var stream := StreamOf(collectors, pk, channelType, usable);
            var c := ReceiveFrames(START, FramesIn(stream));
            && stream[0].Subscribed? && stream[|stream| - 1] == StateComplete
            && (forall k :: 0 < k < |stream| - 1 ==> stream[k].State?)
            && c.Client? && c.coming == None && |c.complete| == |stream[0].collectors| == |Taken(collectors)|
            && forall k :: 0 <= k < |c.complete| ==>
                 && c.complete[k].header.name == stream[0].collectors[k] == Taken(collectors)[k].name
                 && c.complete[k].header.failed == Taken(collectors)[k].collect.Raises?
                 && Statements(c.complete[k].messages) == Statements(Taken(collectors)[k].output)
  {
    hide FramesOf, ReceiveFrames, FramesIn, Statements, Taken;
    var taken := Taken(collectors);
    var frames := FramesOf(SectionsOf(taken), pk, channelType, usable);
    FramesInStream(Names(taken), frames);
    RoundTrip(SectionsOf(taken), pk, channelType, usable);
  }
}
