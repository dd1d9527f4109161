/** Whole transactions told by their events alone: what arrives when every block succeeds, and that
    nothing does when the outermost fails (voteit/messaging/utils.py). */
module TransactionRuns {
  import opened Collections
  import opened Collapse
  import opened Transaction

  // ---------------------------------------------------- every block succeeds

  /** No block raises or is marked for rollback, and nothing asks to be sent at once. */
  predicate Clean(events: seq<Event>) {
    forall e <- events :: e != Leave(true) && e != Mark(true) && !e.SendNow?
  }

  /** What was published, in the order of publishing. */
  function Published(events: seq<Event>): seq<Post> {
    if events == [] then [] else
      Published(events[..|events| - 1]) +
      if events[|events| - 1].Register? && events[|events| - 1].item.Msg? then [events[|events| - 1].item.post]
      else []
  }

  function Waiting(s: State, h: History): seq<Post> {
    if s.inAtomicBlock then Posts(Surviving(h.log, h)) else []
  }

  lemma {:induction false} PostsAppend(a: seq<Item>, b: seq<Item>)
    ensures Posts(a + b) == Posts(a) + Posts(b)
  {
    if b == [] {
      assert a + b == a;
    } else {
      assert (a + b)[..|a + b| - 1] == a + b[..|b| - 1];
      PostsAppend(a, b[..|b| - 1]);
    }
  }

  lemma PostsOfOne(item: Item)
    ensures Posts([item]) == if item.Msg? then [item.post] else []
  {
    assert [item][..0] == [];
  }

  lemma NothingPublished(s: State, events: seq<Event>)
    requires events == []
    ensures Published(events) == [] == PostsDue([]) && Posts([]) == []
  {
  }

  ghost predicate Steady(s: State, h: History) {
    s.inAtomicBlock ==> !s.needsRollback && h.rolledBack == {}
  }

  lemma SurvivingOfNone(h: History)
    ensures Surviving([], h) == []
  {
  }

  /** What an event makes due together with what then waits is what waited and what it publishes. */
  lemma CleanStep(s: State, h: History, e: Event, c: Config)
    requires Inv(s, h, Messages) && Steady(s, h) && Clean([e])
    ensures var t, g := Step(s, e, c), Note(h, s, e, Messages);
            && Steady(t, g)
            && Posts(Due(s, h, e)) + Waiting(t, g) ==
               Waiting(s, h) + if e.Register? && e.item.Msg? then [e.item.post] else []
  {
    hide Surviving, Posts, Inv, Find, Perform;
    assert e in [e];
    var t, g := Step(s, e, c), Note(h, s, e, Messages);
    NothingPublished(s, []);
    match e
    case Enter(savepoint) =>
      SurvivingOfNone(History([], {}, {}));
      if s.inAtomicBlock {
        SurvivingIsSame(h.log, h, g);
      }
    case Leave(_) =>
    case Mark(_) =>
    case Register(item) =>
      if s.inAtomicBlock {
        if item.Msg? {
          PutOffSurvives(s, h, item, Messages);
          PostsAppend(Surviving(h.log, h), [item]);
          PostsOfOne(item);
        }
      } else {
        PostsOfOne(item);
      }
    case SendNow(_) =>
  }

  lemma {:induction false} CleanRunIsDue(s: State, events: seq<Event>, c: Config)
    requires Idle(s) && Clean(events)
    ensures Steady(Run(s, events, c), Noted(s, events, c, Messages))
    ensures PostsDue(AllDue(s, events, c, Messages)) + Waiting(Run(s, events, c), Noted(s, events, c, Messages)) ==
            Published(events)
  {
    hide Step, Note, Due, Posts, Inv, Steady, Waiting;
    if events == [] {
      NothingPublished(s, events);
      NothingWaits(s);
    } else {
      var init, e := events[..|events| - 1], events[|events| - 1];
      assert e in events && forall f <- init :: f in events;
      assert forall f <- [e] :: f == e;
      var t, h := Run(s, init, c), Noted(s, init, c, Messages);
      CleanRunIsDue(s, init, c);
      RunKeeps(s, init, c, Messages);
      CleanStep(t, h, e, c);
      var all := AllDue(s, init, c, Messages);
      assert (all + [Due(t, h, e)])[..|all|] == all;
      PostsRegroup(PostsDue(all), Posts(Due(t, h, e)), Waiting(Step(t, e, c), Note(h, t, e, Messages)),
                   Waiting(t, h), if e.Register? && e.item.Msg? then [e.item.post] else []);
    }
  }

  lemma PostsRegroup(before: seq<Post>, due: seq<Post>, waits: seq<Post>, waited: seq<Post>, more: seq<Post>)
    requires due + waits == waited + more
    ensures (before + due) + waits == (before + waited) + more
  {
    assert (before + due) + waits == before + (due + waits);
    assert before + (waited + more) == (before + waited) + more;
  }

  lemma NothingWaits(s: State)
    requires Idle(s)
    ensures Steady(s, History([], {}, {})) && Waiting(s, History([], {}, {})) == []
  {
  }

  /** Over any run of any number of transactions in which every block succeeds, exactly the messages
      that were published arrive, for every action and target in the order of publishing. */
  lemma CleanRunDelivers(s: State, events: seq<Event>, c: Config, key: Key)
    requires Idle(s) && Clean(events) && !Run(s, events, c).inAtomicBlock
    ensures Group(Delivery(Run(s, events, c).ran), key) ==
            Group(Delivery(s.ran), key) + Group(Published(events), key)
  {
    hide Run, Delivery, Group, Published, PostsDue, AllDue;
    RunDelivers(s, events, c, key);
    CleanRunIsDue(s, events, c);
    var due := PostsDue(AllDue(s, events, c, Messages));
    assert due + [] == due;
  }

  /** The agenda items a push was asked for. */
  function Requested(events: seq<Event>): set<int> {
    set e <- events | e.Register? && e.item.Pk? :: e.item.pk
  }

  function AllPushed(pushes: seq<set<int>>): set<int> {
    set push, pk | push in pushes && pk in push :: pk
  }

  function WaitingPks(s: State, h: History): set<int> {
    if s.inAtomicBlock then Pks(Surviving(h.log, h)) else {}
  }

  lemma AllPushedAppend(a: seq<set<int>>, b: seq<set<int>>)
    ensures AllPushed(a + b) == AllPushed(a) + AllPushed(b)
  {
    assert forall push <- a + b :: push in a || push in b;
    assert (forall push <- a :: push in a + b) && forall push <- b :: push in a + b;
  }

  lemma DueArePushed(due: seq<seq<Item>>, next: seq<Item>)
    ensures AllPushed(PksDue(due + [next])) == AllPushed(PksDue(due)) + Pks(next)
  {
    hide Pks, AllPushed;
    assert (due + [next])[..|due|] == due;
    if Pks(next) == {} {
      assert PksDue(due + [next]) == PksDue(due);
    } else {
      AllPushedAppend(PksDue(due), [Pks(next)]);
      OnePushed(Pks(next));
    }
  }

  lemma OnePushed(push: set<int>)
    ensures AllPushed([push]) == push && AllPushed([]) == {}
  {
    assert push in [push];
    forall pk | pk in push ensures pk in AllPushed([push]) {
      assert push in [push] && pk in push;
    }
  }

  lemma PksAppend(a: seq<Item>, item: Item)
    ensures Pks(a + [item]) == if item.Pk? then Pks(a) + {item.pk} else Pks(a)
    ensures Pks([item]) == if item.Pk? then {item.pk} else {}
    ensures Pks([]) == {}
  {
    assert item in a + [item] && item in [item] && forall i <- a :: i in a + [item];
  }

  lemma CleanStepPks(s: State, h: History, e: Event, c: Config)
    requires Inv(s, h, Related) && Steady(s, h) && Clean([e])
    ensures var t, g := Step(s, e, c), Note(h, s, e, Related);
            && Steady(t, g)
            && Pks(Due(s, h, e)) + WaitingPks(t, g) ==
               WaitingPks(s, h) + if e.Register? && e.item.Pk? then {e.item.pk} else {}
  {
    hide Surviving, Pks, Inv, Find, Perform;
    assert e in [e];
    var t, g := Step(s, e, c), Note(h, s, e, Related);
    match e
    case Enter(savepoint) =>
      PksAppend([], Pk(0));
      SurvivingOfNone(History([], {}, {}));
      if s.inAtomicBlock {
        SurvivingIsSame(h.log, h, g);
      }
    case Leave(_) => PksAppend([], Pk(0));
    case Mark(_) => PksAppend([], Pk(0));
    case Register(item) =>
      PksAppend(Surviving(h.log, h), item);
      if s.inAtomicBlock && item.Pk? {
        PutOffSurvives(s, h, item, Related);
      }
    case SendNow(_) =>
  }

  lemma RequestedSnoc(events: seq<Event>, e: Event)
    ensures Requested(events + [e]) == Requested(events) + if e.Register? && e.item.Pk? then {e.item.pk} else {}
  {
    assert e in events + [e] && forall f <- events :: f in events + [e];
  }

  lemma {:induction false} CleanRunIsPushed(s: State, events: seq<Event>, c: Config)
    requires Idle(s) && Clean(events)
    ensures Steady(Run(s, events, c), Noted(s, events, c, Related))
    ensures AllPushed(PksDue(AllDue(s, events, c, Related))) +
            WaitingPks(Run(s, events, c), Noted(s, events, c, Related)) == Requested(events)
  {
    hide Step, Note, Due, Pks, Inv, Steady, WaitingPks, PksDue, AllPushed, Requested;
    if events == [] {
      NoneRequested(s, events);
    } else {
      var init, e := events[..|events| - 1], events[|events| - 1];
      assert events == init + [e];
      assert e in events && forall f <- init :: f in events;
      assert forall f <- [e] :: f == e;
      var t, h := Run(s, init, c), Noted(s, init, c, Related);
      CleanRunIsPushed(s, init, c);
      RunKeeps(s, init, c, Related);
      CleanStepPks(t, h, e, c);
      DueArePushed(AllDue(s, init, c, Related), Due(t, h, e));
      RequestedSnoc(init, e);
    }
  }

  lemma NoneRequested(s: State, events: seq<Event>)
    requires Idle(s) && events == []
    ensures Steady(s, History([], {}, {})) && WaitingPks(s, History([], {}, {})) == {}
    ensures AllPushed(PksDue([])) == {} == Requested(events)
  {
  }

  /** And exactly the agenda items a push was asked for are pushed. */
  lemma CleanRunPushes(s: State, events: seq<Event>, c: Config)
    requires Idle(s) && Clean(events) && !Run(s, events, c).inAtomicBlock
    ensures AllPushed(Pushed(Run(s, events, c).ran)) == AllPushed(Pushed(s.ran)) + Requested(events)
  {
    hide Run, Pushed, AllPushed, Requested, PksDue, AllDue;
    RunPushes(s, events, c);
    CleanRunIsPushed(s, events, c);
    AllPushedAppend(Pushed(s.ran), PksDue(AllDue(s, events, c, Related)));
  }

  // ------------------------------------------------------- the outermost fails

  /** The events of one block from its entry on, none of which asks to be sent at once: the block is
      not left before the last of them. */
  predicate OneBlock(s: State, events: seq<Event>, c: Config) {
    && events != [] && events[0].Enter? && !s.inAtomicBlock
    && (forall e <- events :: !e.SendNow?)
    && forall k :: 0 < k < |events| ==> Run(s, events[..k], c).inAtomicBlock
  }

  lemma {:induction false} NothingIsSentWithin(s: State, events: seq<Event>, c: Config, k: nat)
    requires OneBlock(s, events, c) && k < |events|
    ensures Run(s, events[..k], c).ran == s.ran
  {
    hide PerformAll, Run, Find;
    if k == 0 {
      NothingRun(s, events[..0], c);
    } else {
      NothingIsSentWithin(s, events, c, k - 1);
      RunNext(s, events, c, k - 1);
      if k == 1 {
        NothingRun(s, events[..0], c);
      }
      assert Run(s, events[..k], c).inAtomicBlock;
      assert events[k - 1] in events;
    }
  }

  lemma NothingRun(s: State, events: seq<Event>, c: Config)
    requires events == []
    ensures Run(s, events, c) == s
  {
  }

  lemma RunNext(s: State, events: seq<Event>, c: Config, k: nat)
    requires k < |events|
    ensures Run(s, events[..k + 1], c) == Step(Run(s, events[..k], c), events[k], c)
  {
    assert events[..k + 1][..k] == events[..k];
  }

  /** When the outermost block raises nothing of what was put off in it is sent or pushed, whatever
      savepoints there were, and nothing is left waiting. */
  lemma AbortSendsNothing(s: State, events: seq<Event>, c: Config)
    requires OneBlock(s, events, c) && events[|events| - 1] == Leave(true)
    requires !Run(s, events, c).inAtomicBlock
    ensures Run(s, events, c).ran == s.ran && Run(s, events, c).runOnCommit == []
  {
    hide PerformAll, Run, Find;
    var n := |events| - 1;
    NothingIsSentWithin(s, events, c, n);
    RunNext(s, events, c, n);
    assert events[..n + 1] == events;
    assert n > 0;
    assert Run(s, events[..n], c).inAtomicBlock;
  }

  /** A block that will roll back, with no savepoint around it to stop at. */
  predicate Doomed(s: State) {
    s.inAtomicBlock && s.needsRollback && forall sid <- s.savepointIds :: sid.None?
  }

  /** An inner block without a savepoint of its own that raises dooms the whole transaction if no
      block around it has one. */
  lemma RaiseDooms(s: State, c: Config)
    requires s.inAtomicBlock && s.savepointIds != [] && forall sid <- s.savepointIds :: sid.None?
    ensures Doomed(Left(s, true, c))
  {
    var n := |s.savepointIds| - 1;
    assert s.savepointIds[n] in s.savepointIds;
    assert forall sid <- s.savepointIds[..n] :: sid in s.savepointIds;
  }

  /** A doomed transaction sends nothing, whatever is done before it ends and however it ends, unless
      the mark is taken back. */
  lemma {:induction false} DoomedSendsNothing(s: State, events: seq<Event>, c: Config)
    requires Doomed(s) && forall e <- events :: e != Mark(false) && !e.SendNow?
    requires forall k :: 0 <= k < |events| ==> Run(s, events[..k], c).inAtomicBlock
    ensures var t := Run(s, events, c);
            t.ran == s.ran && if t.inAtomicBlock then Doomed(t) else t.runOnCommit == []
  {
    hide PerformAll, Run, Find, Without;
    if events == [] {
      NothingRun(s, events, c);
    } else {
      var n := |events| - 1;
      var init, e := events[..n], events[n];
      assert e in events && forall f <- init :: f in events;
      forall k | 0 <= k < n ensures Run(s, init[..k], c).inAtomicBlock {
        assert init[..k] == events[..k];
      }
      DoomedSendsNothing(s, init, c);
      RunNext(s, events, c, n);
      assert events[..n + 1] == events;
      DoomedStep(Run(s, init, c), e, c);
    }
  }

  lemma DoomedStep(s: State, e: Event, c: Config)
    requires Doomed(s) && e != Mark(false) && !e.SendNow?
    ensures var t := Step(s, e, c);
            t.ran == s.ran && if t.inAtomicBlock then Doomed(t) else t.runOnCommit == []
  {
    hide PerformAll, Find, Without;
    if e.Leave? && s.savepointIds != [] {
      var n := |s.savepointIds| - 1;
      assert s.savepointIds[n] in s.savepointIds;
      assert forall sid <- s.savepointIds[..n] :: sid in s.savepointIds;
    }
  }
}
