/** Work put off to commit while savepoints come and go: what `publish` and
    `schedule_related_modified_push` build on Django's `run_on_commit` list
    (voteit/messaging/utils.py, voteit/agenda/signals.py). */
module Transaction {
  import opened Collections
  import opened Collapse

  // ------------------------------------------------------------- data model

  /** A block entered without a savepoint of its own is recorded as None. */
  type Sid = Option<nat>

  datatype Kind = Messages | Related | Foreign

  /** What is put off: a message for the batcher, an agenda item for the related push, or some
      other function. */
  datatype Item = Msg(post: Post) | Pk(pk: int) | Call(id: int) {
    function Kind(): Kind {
      match this
      case Msg(_) => Messages
      case Pk(_) => Related
      case Call(_) => Foreign
    }
  }

  /** A hook with the savepoints that were active when it was registered. */
  datatype Entry = Entry(sids: set<Sid>, kind: Kind, items: seq<Item>)

  /** What running a hook does. */
  datatype Effect = Sends(sent: seq<Sent>) | Pushes(pks: set<int>) | Calls(ids: seq<int>)

  datatype State = State(
    inAtomicBlock: bool,
    savepointIds: seq<Sid>,
    needsRollback: bool,
    nextSid: nat,
    runOnCommit: seq<Entry>,
    ran: seq<Effect>)

  datatype Config = Config(threshold: int, batchable: set<string>)

  /** `Mark` sets the flag that makes the current block roll back, as a caught database error does
      without the block raising, or clears it. `SendNow` does not put off, whatever block it is in. */
  datatype Event =
    | Enter(savepoint: bool)
    | Leave(raised: bool)
    | Mark(rollback: bool)
    | Register(item: Item)
    | SendNow(item: Item)

  // --------------------------------------------------------- the machine, stated

  function Posts(items: seq<Item>): seq<Post> {
    if items == [] then [] else
      Posts(items[..|items| - 1]) + if items[|items| - 1].Msg? then [items[|items| - 1].post] else []
  }

  function Pks(items: seq<Item>): set<int> {
    set item <- items | item.Pk? :: item.pk
  }

  function Ids(items: seq<Item>): seq<int> {
    if items == [] then [] else
      Ids(items[..|items| - 1]) + if items[|items| - 1].Call? then [items[|items| - 1].id] else []
  }

  function Perform(e: Entry, c: Config): Effect {
    match e.kind
    case Messages => Sends(Collapsed(Posts(e.items), c.threshold, c.batchable))
    case Related => Pushes(Pks(e.items))
    case Foreign => Calls(Ids(e.items))
  }

  function PerformAll(hooks: seq<Entry>, c: Config): seq<Effect> {
    seq(|hooks|, i requires 0 <= i < |hooks| => Perform(hooks[i], c))
  }

  /** What happens to work that is not put off. */
  function Immediate(item: Item): Effect {
    match item
    case Msg(p) => Sends([One(p)])
    case Pk(pk) => Pushes({pk})
    case Call(id) => Calls([id])
  }

  /** Index of the first hook of a kind, or the number of hooks. */
  function Find(hooks: seq<Entry>, kind: Kind): (i: nat)
    ensures i <= |hooks|
    ensures i < |hooks| ==> hooks[i].kind == kind
  {
    if hooks == [] then 0
    else if Find(hooks[..|hooks| - 1], kind) < |hooks| - 1 then Find(hooks[..|hooks| - 1], kind)
    else if hooks[|hooks| - 1].kind == kind then |hooks| - 1
    else |hooks|
  }

  /** Rolling a savepoint back drops the hooks registered while it was active. */
  function Without(hooks: seq<Entry>, sid: Sid): seq<Entry> {
    if hooks == [] then []
    else if sid in hooks[|hooks| - 1].sids then Without(hooks[..|hooks| - 1], sid)
    else Without(hooks[..|hooks| - 1], sid) + [hooks[|hooks| - 1]]
  }

  function Open(s: State): set<Sid> {
    set sid <- s.savepointIds
  }

  function Entered(s: State, savepoint: bool): State {
    if !s.inAtomicBlock then
      s.(inAtomicBlock := true, needsRollback := false)
    else if savepoint && !s.needsRollback then
      s.(savepointIds := s.savepointIds + [Some(s.nextSid)], nextSid := s.nextSid + 1)
    else
      s.(savepointIds := s.savepointIds + [None])
  }

  function Left(s: State, raised: bool, c: Config): State {
    if !s.inAtomicBlock then
      s
    else if s.savepointIds == [] then
      if !raised && !s.needsRollback
      then s.(inAtomicBlock := false, runOnCommit := [], ran := s.ran + PerformAll(s.runOnCommit, c))
      else s.(inAtomicBlock := false, needsRollback := false, runOnCommit := [])
    else
      var sid, t := s.savepointIds[|s.savepointIds| - 1], s.(savepointIds := s.savepointIds[..|s.savepointIds| - 1]);
      if !raised && !s.needsRollback then t
      else if sid.None? then t.(needsRollback := true)
      else t.(needsRollback := false, runOnCommit := Without(s.runOnCommit, sid))
  }

  function SentNow(s: State, item: Item): State {
    s.(ran := s.ran + [Immediate(item)])
  }

  function Marked(s: State, rollback: bool): State {
    if s.inAtomicBlock then s.(needsRollback := rollback) else s
  }

  function Registered(s: State, item: Item): State {
    var i := Find(s.runOnCommit, item.Kind());
    if !s.inAtomicBlock then
      s.(ran := s.ran + [Immediate(item)])
    else if !item.Call? && i < |s.runOnCommit| then
      var e := s.runOnCommit[i];
      s.(runOnCommit := s.runOnCommit[i := e.(items := e.items + [item])])
    else
      s.(runOnCommit := s.runOnCommit + [Entry(Open(s), item.Kind(), [item])])
  }

  function Step(s: State, e: Event, c: Config): State {
    match e
    case Enter(savepoint) => Entered(s, savepoint)
    case Leave(raised) => Left(s, raised, c)
    case Mark(rollback) => Marked(s, rollback)
    case Register(item) => Registered(s, item)
    case SendNow(item) => SentNow(s, item)
  }

  function Run(s: State, events: seq<Event>, c: Config): State {
    if events == [] then s else
      Step(Run(s, events[..|events| - 1], c), events[|events| - 1], c)
  }

  // ------------------------------------------------- what ought to be delivered

  /** One item put off, with the savepoints it was put off under. */
  datatype Logged = Logged(item: Item, sids: set<Sid>)

  /** The current transaction as seen by those who put work of one kind off: what they asked
      for, which savepoints were rolled back, and which were opened when something of that kind
      was already waiting. */
  datatype History = History(log: seq<Logged>, rolledBack: set<Sid>, early: set<Sid>)

  /** An item survives unless a savepoint it was put off under is rolled back, not counting the
      savepoints opened when something of its kind was already waiting. */
  predicate Survives(l: Logged, h: History) {
    (l.sids - h.early) !! h.rolledBack
  }

  function Surviving(log: seq<Logged>, h: History): seq<Item> {
    if log == [] then [] else
      Surviving(log[..|log| - 1], h) + if Survives(log[|log| - 1], h) then [log[|log| - 1].item] else []
  }

  /** What rolls back: the popped savepoint, when its block raised or was marked for rollback. */
  predicate RollsBack(s: State, raised: bool) {
    s.inAtomicBlock && s.savepointIds != [] && s.savepointIds[|s.savepointIds| - 1].Some? && (raised || s.needsRollback)
  }

  function Note(h: History, s: State, e: Event, kind: Kind): History {
    match e
    case Enter(savepoint) =>
      if !s.inAtomicBlock then History([], {}, {})
      else if savepoint && !s.needsRollback && Surviving(h.log, h) != [] then h.(early := h.early + {Some(s.nextSid)})
      else h
    case Leave(raised) =>
      if RollsBack(s, raised) then h.(rolledBack := h.rolledBack + {s.savepointIds[|s.savepointIds| - 1]}) else h
    case Mark(_) => h
    case Register(item) =>
      if s.inAtomicBlock && item.Kind() == kind then h.(log := h.log + [Logged(item, Open(s))]) else h
    case SendNow(_) => h
  }

  function Noted(s: State, events: seq<Event>, c: Config, kind: Kind): History {
    if events == [] then History([], {}, {}) else
      Note(Noted(s, events[..|events| - 1], c, kind), Run(s, events[..|events| - 1], c), events[|events| - 1], kind)
  }

  // ------------------------------------------------------------- the invariant

  ghost predicate Fresh(sids: set<Sid>, n: nat) {
    forall sid <- sids :: sid.Some? ==> sid.value < n
  }

  /** Savepoints are numbered upwards and closed in the opposite order. */
  ghost predicate Nested(s: State) {
    && Fresh(Open(s), s.nextSid)
    && (forall i, j :: 0 <= i < j < |s.savepointIds| && s.savepointIds[i].Some? && s.savepointIds[j].Some? ==>
         s.savepointIds[i].value < s.savepointIds[j].value)
    && (!s.inAtomicBlock ==> s.savepointIds == [] && s.runOnCommit == [])
  }

  /** The hooks of one kind. */
  function Of(hooks: seq<Entry>, kind: Kind): seq<Entry> {
    if hooks == [] then []
    else if hooks[|hooks| - 1].kind == kind then Of(hooks[..|hooks| - 1], kind) + [hooks[|hooks| - 1]]
    else Of(hooks[..|hooks| - 1], kind)
  }

  /** The hook that collects this kind covers every open savepoint that was not opened while it
      was waiting, and none of the others. */
  ghost predicate Covers(sids: set<Sid>, s: State, h: History) {
    && Fresh(sids, s.nextSid)
    && forall sid <- s.savepointIds :: sid.Some? ==>
         && (sid in sids <==> sid !in h.early)
         && (sid in h.early ==> Fresh(sids, sid.value))
  }

  /** At most one hook collects this kind, and it holds exactly what survives. */
  ghost predicate Collecting(s: State, h: History, kind: Kind) {
    var hooks := Of(s.runOnCommit, kind);
    if Surviving(h.log, h) == [] then
      && hooks == []
      && forall sid <- s.savepointIds :: sid !in h.early
    else
      && |hooks| == 1
      && hooks[0].items == Surviving(h.log, h)
      && Covers(hooks[0].sids, s, h)
  }

  ghost predicate Remembered(s: State, h: History) {
    && Fresh(h.early, s.nextSid)
    && Fresh(h.rolledBack, s.nextSid)
    && None !in h.early
    && None !in h.rolledBack
    && Open(s) !! h.rolledBack
    && forall l <- h.log :: Survives(l, h) ==> Open(s) - h.early - {None} <= l.sids
  }

  ghost predicate Inv(s: State, h: History, kind: Kind) {
    && Nested(s)
    && (s.inAtomicBlock ==> Collecting(s, h, kind) && Remembered(s, h))
  }

  // ------------------------------------------------------- lookups and filters

  lemma OfAppend(hooks: seq<Entry>, e: Entry, kind: Kind)
    ensures Of(hooks + [e], kind) == if e.kind == kind then Of(hooks, kind) + [e] else Of(hooks, kind)
  {
    assert (hooks + [e])[..|hooks|] == hooks;
  }

  lemma WithoutAppend(hooks: seq<Entry>, e: Entry, sid: Sid)
    ensures Without(hooks + [e], sid) == if sid in e.sids then Without(hooks, sid) else Without(hooks, sid) + [e]
  {
    assert (hooks + [e])[..|hooks|] == hooks;
  }

  lemma NoHooks(sid: Sid, kind: Kind)
    ensures Of([], kind) == [] == Without([], sid)
  {
  }

  lemma {:induction false} OfWithout(hooks: seq<Entry>, sid: Sid, kind: Kind)
    ensures Of(Without(hooks, sid), kind) == Without(Of(hooks, kind), sid)
  {
    hide Of, Without;
    if hooks == [] {
      NoHooks(sid, kind);
    } else {
      var init, last := hooks[..|hooks| - 1], hooks[|hooks| - 1];
      assert hooks == init + [last];
      OfWithout(init, sid, kind);
      OfAppend(init, last, kind);
      WithoutAppend(init, last, sid);
      OfAppend(Without(init, sid), last, kind);
      WithoutAppend(Of(init, kind), last, sid);
    }
  }

  lemma {:induction false} FindIsOf(hooks: seq<Entry>, kind: Kind)
    ensures Find(hooks, kind) == |hooks| <==> Of(hooks, kind) == []
    ensures Find(hooks, kind) < |hooks| ==> hooks[Find(hooks, kind)] == Of(hooks, kind)[0]
  {
    if hooks != [] {
      FindIsOf(hooks[..|hooks| - 1], kind);
    }
  }

  /** Replacing the first hook of a kind by another of that kind. */
  lemma {:induction false} OfUpdate(hooks: seq<Entry>, kind: Kind, e: Entry, other: Kind)
    requires Find(hooks, kind) < |hooks| && e.kind == kind
    ensures Of(hooks, kind) != []
    ensures Of(hooks[Find(hooks, kind) := e], other) ==
            if other == kind then Of(hooks, kind)[0 := e] else Of(hooks, other)
  {
    FindIsOf(hooks, kind);
    var init, i := hooks[..|hooks| - 1], Find(hooks, kind);
    FindIsOf(init, kind);
    if i < |init| {
      OfUpdate(init, kind, e, other);
      assert hooks[i := e][..|hooks| - 1] == init[i := e];
    } else {
      assert hooks[i := e][..|hooks| - 1] == init;
    }
  }

  lemma {:induction false} SurvivingIsNone(log: seq<Logged>, h: History)
    ensures Surviving(log, h) == [] <==> forall l <- log :: !Survives(l, h)
  {
    if log != [] {
      SurvivingIsNone(log[..|log| - 1], h);
      assert log == log[..|log| - 1] + [log[|log| - 1]];
    }
  }

  lemma {:induction false} SurvivingIsSame(log: seq<Logged>, h: History, g: History)
    requires forall l <- log :: Survives(l, h) <==> Survives(l, g)
    ensures Surviving(log, h) == Surviving(log, g)
  {
    if log != [] {
      SurvivingIsSame(log[..|log| - 1], h, g);
    }
  }

  // ------------------------------------------------------- every step keeps it

  lemma PushKeepsNested(s: State, sid: Sid, next: nat)
    requires Nested(s) && s.inAtomicBlock && s.nextSid <= next
    requires sid.Some? ==> s.nextSid <= sid.value < next
    ensures var t := s.(savepointIds := s.savepointIds + [sid], nextSid := next);
            Nested(t) && Open(t) == Open(s) + {sid}
  {
    forall i | 0 <= i < |s.savepointIds| && s.savepointIds[i].Some? ensures s.savepointIds[i].value < s.nextSid {
      assert s.savepointIds[i] in Open(s);
    }
  }

  lemma PopKeepsNested(s: State)
    requires Nested(s) && s.inAtomicBlock && s.savepointIds != []
    ensures var sid := s.savepointIds[|s.savepointIds| - 1];
            var t := s.(savepointIds := s.savepointIds[..|s.savepointIds| - 1]);
            && Nested(t)
            && Open(t) <= Open(s)
            && sid in Open(s)
            && (sid.Some? ==> forall other <- Open(t) :: other.Some? ==> other.value < sid.value)
  {
    var sid, t := s.savepointIds[|s.savepointIds| - 1], s.(savepointIds := s.savepointIds[..|s.savepointIds| - 1]);
    assert forall i :: 0 <= i < |t.savepointIds| ==> t.savepointIds[i] == s.savepointIds[i];
    assert forall other <- Open(t) :: other in s.savepointIds;
  }

  lemma OpenSavepointKeeps(s: State, h: History, kind: Kind)
    requires Inv(s, h, kind) && s.inAtomicBlock && !s.needsRollback
    ensures Inv(Entered(s, true), Note(h, s, Enter(true), kind), kind)
  {
    hide Surviving, Of;
    var t, g := Entered(s, true), Note(h, s, Enter(true), kind);
    PushKeepsNested(s, Some(s.nextSid), s.nextSid + 1);
    assert Some(s.nextSid) !in h.rolledBack && Some(s.nextSid) !in h.early;
    assert forall l <- h.log :: Survives(l, h) <==> Survives(l, g);
    SurvivingIsSame(h.log, h, g);
    SurvivingIsNone(h.log, h);
    assert forall sid <- t.savepointIds :: sid in Open(t);
  }

  lemma OpenBlockKeeps(s: State, h: History, kind: Kind)
    requires Inv(s, h, kind) && s.inAtomicBlock
    ensures Inv(s.(savepointIds := s.savepointIds + [None]), h, kind)
  {
    hide Surviving, Of;
    PushKeepsNested(s, None, s.nextSid);
    var t := s.(savepointIds := s.savepointIds + [None]);
    assert forall sid <- t.savepointIds :: sid in Open(t);
  }

  lemma OutermostKeeps(s: State, h: History, savepoint: bool, kind: Kind)
    requires Inv(s, h, kind) && !s.inAtomicBlock
    ensures Inv(Entered(s, savepoint), Note(h, s, Enter(savepoint), kind), kind)
  {
  }

  lemma EnterKeeps(s: State, h: History, savepoint: bool, kind: Kind)
    requires Inv(s, h, kind)
    ensures Inv(Entered(s, savepoint), Note(h, s, Enter(savepoint), kind), kind)
  {
    hide Inv, Surviving;
    if !s.inAtomicBlock {
      OutermostKeeps(s, h, savepoint, kind);
    } else if savepoint && !s.needsRollback {
      OpenSavepointKeeps(s, h, kind);
    } else {
      OpenBlockKeeps(s, h, kind);
    }
  }

  lemma CloseBlockKeeps(s: State, h: History, needsRollback: bool, kind: Kind)
    requires Inv(s, h, kind) && s.inAtomicBlock && s.savepointIds != []
    ensures Inv(s.(savepointIds := s.savepointIds[..|s.savepointIds| - 1], needsRollback := needsRollback), h, kind)
  {
    hide Surviving, Of;
    PopKeepsNested(s);
    var t := s.(savepointIds := s.savepointIds[..|s.savepointIds| - 1], needsRollback := needsRollback);
    assert forall sid <- t.savepointIds :: sid in Open(t) && sid in s.savepointIds;
  }

  /** Rolling back a savepoint opened while something was waiting leaves the collecting hook
      alone, and every item with it. */
  lemma RollbackEarlyKeeps(s: State, h: History, kind: Kind, sid: Sid)
    requires Inv(s, h, kind) && s.inAtomicBlock && sid in s.savepointIds && sid in h.early
    requires forall other <- s.savepointIds :: other.Some? && sid.Some? ==> other.value <= sid.value
    ensures Surviving(h.log, h) == Surviving(h.log, h.(rolledBack := h.rolledBack + {sid})) != []
    ensures Of(Without(s.runOnCommit, sid), kind) == Of(s.runOnCommit, kind)
  {
    hide Surviving, Of;
    OfWithout(s.runOnCommit, sid, kind);
    var g := h.(rolledBack := h.rolledBack + {sid});
    assert forall l <- h.log :: Survives(l, h) <==> Survives(l, g);
    SurvivingIsSame(h.log, h, g);
    var hooks := Of(s.runOnCommit, kind);
    assert hooks[..0] == [];
    assert sid !in hooks[0].sids;
    assert hooks == [hooks[0]];
  }

  /** Rolling back any other savepoint takes the hook away, and every item with it. */
  lemma RollbackLateKeeps(s: State, h: History, kind: Kind, sid: Sid)
    requires Inv(s, h, kind) && s.inAtomicBlock && sid in s.savepointIds && sid.Some? && sid !in h.early
    ensures Surviving(h.log, h.(rolledBack := h.rolledBack + {sid})) == []
    ensures Of(Without(s.runOnCommit, sid), kind) == []
  {
    hide Surviving, Of;
    OfWithout(s.runOnCommit, sid, kind);
    var g := h.(rolledBack := h.rolledBack + {sid});
    forall l <- h.log ensures !Survives(l, g) {
      if Survives(l, h) {
        assert sid in Open(s) - h.early - {None};
        assert sid in l.sids - h.early;
      }
    }
    SurvivingIsNone(h.log, g);
    var hooks := Of(s.runOnCommit, kind);
    if hooks != [] {
      assert hooks[..0] == [] && hooks == [hooks[0]];
      assert sid in hooks[0].sids;
    }
  }

  lemma RollbackKeepsRemembered(s: State, h: History, t: State, g: History, kind: Kind)
    requires Inv(s, h, kind) && s.inAtomicBlock && s.savepointIds != []
    requires var sid := s.savepointIds[|s.savepointIds| - 1];
             sid.Some? && g == h.(rolledBack := h.rolledBack + {sid})
    requires t.savepointIds == s.savepointIds[..|s.savepointIds| - 1] && t.nextSid == s.nextSid
    ensures Remembered(t, g)
  {
    hide Surviving, Of, Collecting;
    PopKeepsNested(s);
    assert Open(t) == Open(s.(savepointIds := s.savepointIds[..|s.savepointIds| - 1]));
    assert forall l <- h.log :: Survives(l, g) ==> Survives(l, h);
  }

  lemma RollbackKeeps(s: State, h: History, c: Config, raised: bool, kind: Kind)
    requires Inv(s, h, kind) && RollsBack(s, raised)
    ensures Inv(Left(s, raised, c), Note(h, s, Leave(raised), kind), kind)
  {
    hide Surviving, Of, Without, Remembered;
    var sid := s.savepointIds[|s.savepointIds| - 1];
    var t, g := Left(s, raised, c), h.(rolledBack := h.rolledBack + {sid});
    PopKeepsNested(s);
    RollbackKeepsRemembered(s, h, t, g, kind);
    assert forall other <- s.savepointIds :: other in t.savepointIds || other == sid by {
      assert s.savepointIds == t.savepointIds + [sid];
    }
    assert forall other <- t.savepointIds :: other in Open(t) && other in s.savepointIds;
    if sid in h.early {
      RollbackEarlyKeeps(s, h, kind, sid);
    } else {
      RollbackLateKeeps(s, h, kind, sid);
      LateMeansAllLate(s, h, kind, sid);
    }
  }

  /** If nothing was waiting when the last savepoint was opened, nothing was when the earlier
      ones were. */
  lemma LateMeansAllLate(s: State, h: History, kind: Kind, sid: Sid)
    requires Inv(s, h, kind) && s.inAtomicBlock && sid in s.savepointIds && sid.Some? && sid !in h.early
    requires forall other <- s.savepointIds :: other.Some? ==> other.value <= sid.value
    ensures forall other <- s.savepointIds :: other !in h.early
  {
    hide Surviving, Of;
    forall other <- s.savepointIds ensures other !in h.early {
      if other in h.early {
        assert false;
      }
    }
  }

  lemma LeaveKeeps(s: State, h: History, raised: bool, c: Config, kind: Kind)
    requires Inv(s, h, kind)
    ensures Inv(Left(s, raised, c), Note(h, s, Leave(raised), kind), kind)
  {
    hide Surviving, Of, Without, Collecting, Remembered, PerformAll;
    if s.inAtomicBlock && s.savepointIds != [] {
      if RollsBack(s, raised) {
        RollbackKeeps(s, h, c, raised, kind);
      } else {
        CloseBlockKeeps(s, h, if raised || s.needsRollback then true else s.needsRollback, kind);
      }
    }
  }

  lemma PutOffSurvives(s: State, h: History, item: Item, kind: Kind)
    requires Inv(s, h, kind) && s.inAtomicBlock && item.Kind() == kind
    ensures var g := Note(h, s, Register(item), kind);
            Surviving(g.log, g) == Surviving(h.log, h) + [item]
  {
    var g := Note(h, s, Register(item), kind);
    assert g.log[..|h.log|] == h.log;
    SurvivingIsSame(h.log, h, g);
    assert Survives(Logged(item, Open(s)), g);
  }

  lemma PutOffKeeps(s: State, h: History, item: Item, kind: Kind)
    requires Inv(s, h, kind) && s.inAtomicBlock && item.Kind() == kind != Foreign
    ensures Inv(Registered(s, item), Note(h, s, Register(item), kind), kind)
  {
    hide Surviving, Of, Find;
    var i, g, t := Find(s.runOnCommit, kind), Note(h, s, Register(item), kind), Registered(s, item);
    FindIsOf(s.runOnCommit, kind);
    PutOffSurvives(s, h, item, kind);
    assert forall l <- g.log :: l in h.log || l.sids == Open(s);
    if i < |s.runOnCommit| {
      var e := s.runOnCommit[i];
      OfUpdate(s.runOnCommit, kind, e.(items := e.items + [item]), kind);
    } else {
      OfAppend(s.runOnCommit, Entry(Open(s), kind, [item]), kind);
      assert forall sid <- t.savepointIds :: sid in Open(s);
    }
  }

  lemma OtherKindKeeps(s: State, h: History, item: Item, kind: Kind)
    requires Inv(s, h, kind) && s.inAtomicBlock && item.Kind() != kind
    ensures Inv(Registered(s, item), h, kind)
  {
    hide Surviving, Of, Find;
    var i := Find(s.runOnCommit, item.Kind());
    if !item.Call? && i < |s.runOnCommit| {
      var e := s.runOnCommit[i];
      OfUpdate(s.runOnCommit, item.Kind(), e.(items := e.items + [item]), kind);
    } else {
      OfAppend(s.runOnCommit, Entry(Open(s), item.Kind(), [item]), kind);
    }
  }

  lemma RegisterKeeps(s: State, h: History, item: Item, kind: Kind)
    requires Inv(s, h, kind) && kind != Foreign
    ensures Inv(Registered(s, item), Note(h, s, Register(item), kind), kind)
  {
    hide Surviving, Of, Find, Collecting, Remembered;
    if s.inAtomicBlock {
      if item.Kind() == kind {
        PutOffKeeps(s, h, item, kind);
      } else {
        OtherKindKeeps(s, h, item, kind);
      }
    }
  }

  lemma SendNowKeeps(s: State, h: History, item: Item, kind: Kind)
    requires Inv(s, h, kind)
    ensures Inv(SentNow(s, item), h, kind)
  {
    hide Surviving, Of;
    assert Open(SentNow(s, item)) == Open(s);
  }

  lemma MarkKeeps(s: State, h: History, rollback: bool, kind: Kind)
    requires Inv(s, h, kind)
    ensures Inv(Marked(s, rollback), h, kind)
  {
    hide Surviving, Of;
    assert Open(Marked(s, rollback)) == Open(s);
  }

  ghost predicate Idle(s: State) {
    !s.inAtomicBlock && Nested(s)
  }

  lemma {:induction false} RunKeeps(s: State, events: seq<Event>, c: Config, kind: Kind)
    requires Idle(s) && kind != Foreign
    ensures Inv(Run(s, events, c), Noted(s, events, c, kind), kind)
  {
    hide Inv, Entered, Left, Marked, Registered, SentNow;
    if events == [] {
      IdleHolds(s, kind);
    } else {
      RunKeeps(s, events[..|events| - 1], c, kind);
      var t, h := Run(s, events[..|events| - 1], c), Noted(s, events[..|events| - 1], c, kind);
      match events[|events| - 1]
      case Enter(savepoint) => EnterKeeps(t, h, savepoint, kind);
      case Leave(raised) => LeaveKeeps(t, h, raised, c, kind);
      case Mark(rollback) => MarkKeeps(t, h, rollback, kind);
      case Register(item) => RegisterKeeps(t, h, item, kind);
      case SendNow(item) => SendNowKeeps(t, h, item, kind);
    }
  }

  lemma IdleHolds(s: State, kind: Kind)
    requires Idle(s)
    ensures Inv(s, History([], {}, {}), kind)
  {
  }

  // ------------------------------------------------------------ what is delivered

  /** The messages that arrive, in order. */
  function Delivery(ran: seq<Effect>): seq<Post> {
    if ran == [] then [] else
      Delivery(ran[..|ran| - 1]) + if ran[|ran| - 1].Sends? then Delivered(ran[|ran| - 1].sent) else []
  }

  /** The related pushes, in order. */
  function Pushed(ran: seq<Effect>): seq<set<int>> {
    if ran == [] then [] else
      Pushed(ran[..|ran| - 1]) + if ran[|ran| - 1].Pushes? then [ran[|ran| - 1].pks] else []
  }

  predicate Commits(s: State, e: Event) {
    e == Leave(false) && s.inAtomicBlock && s.savepointIds == [] && !s.needsRollback
  }

  /** What is not put off: anything outside of a block, and what asks not to be. */
  predicate AtOnce(s: State, e: Event) {
    e.SendNow? || (e.Register? && !s.inAtomicBlock)
  }

  /** What one event makes due: at a commit whatever survives, in the order it was put off; what is
      not put off at once; otherwise nothing. */
  function Due(s: State, h: History, e: Event): seq<Item> {
    if Commits(s, e) then Surviving(h.log, h)
    else if AtOnce(s, e) then [e.item]
    else []
  }

  function AllDue(s: State, events: seq<Event>, c: Config, kind: Kind): seq<seq<Item>> {
    if events == [] then [] else
      var init := events[..|events| - 1];
      AllDue(s, init, c, kind) + [Due(Run(s, init, c), Noted(s, init, c, kind), events[|events| - 1])]
  }

  function PostsDue(due: seq<seq<Item>>): seq<Post> {
    if due == [] then [] else PostsDue(due[..|due| - 1]) + Posts(due[|due| - 1])
  }

  function PksDue(due: seq<seq<Item>>): seq<set<int>> {
    if due == [] then [] else
      PksDue(due[..|due| - 1]) + if Pks(due[|due| - 1]) == {} then [] else [Pks(due[|due| - 1])]
  }

  lemma {:induction false} DeliveryAppend(a: seq<Effect>, b: seq<Effect>)
    ensures Delivery(a + b) == Delivery(a) + Delivery(b)
    ensures Pushed(a + b) == Pushed(a) + Pushed(b)
  {
    hide Delivered;
    if b == [] {
      assert a + b == a;
    } else {
      var init, last := b[..|b| - 1], b[|b| - 1];
      assert (a + b)[..|a + b| - 1] == a + init && (a + b)[|a + b| - 1] == last;
      DeliveryAppend(a, init);
    }
  }

  lemma PerformAllSnoc(hooks: seq<Entry>, c: Config)
    requires hooks != []
    ensures PerformAll(hooks, c) == PerformAll(hooks[..|hooks| - 1], c) + [Perform(hooks[|hooks| - 1], c)]
  {
  }

  lemma DeliveryOfOne(e: Effect)
    ensures Delivery([e]) == if e.Sends? then Delivered(e.sent) else []
    ensures Pushed([e]) == if e.Pushes? then [e.pks] else []
  {
    assert [e][..0] == [];
  }

  /** Only the hooks of the kind matter for what is delivered. */
  lemma {:induction false} DeliveryOfHooks(hooks: seq<Entry>, c: Config)
    ensures Delivery(PerformAll(hooks, c)) == Delivery(PerformAll(Of(hooks, Messages), c))
    ensures Pushed(PerformAll(hooks, c)) == Pushed(PerformAll(Of(hooks, Related), c))
  {
    hide Delivery, Pushed, PerformAll, Collapsed;
    if hooks != [] {
      var init, last := hooks[..|hooks| - 1], hooks[|hooks| - 1];
      DeliveryOfHooks(init, c);
      PerformAllSnoc(hooks, c);
      DeliveryAppend(PerformAll(init, c), [Perform(last, c)]);
      DeliveryOfOne(Perform(last, c));
      if last.kind != Foreign {
        var kept := Of(init, last.kind);
        assert (kept + [last])[..|kept|] == kept;
        PerformAllSnoc(kept + [last], c);
        DeliveryAppend(PerformAll(kept, c), [Perform(last, c)]);
      }
    }
  }

  lemma {:induction false} PostsAreOfKind(log: seq<Logged>, h: History, kind: Kind)
    requires forall l <- log :: l.item.Kind() == kind
    ensures forall item <- Surviving(log, h) :: item.Kind() == kind
  {
    if log != [] {
      PostsAreOfKind(log[..|log| - 1], h, kind);
    }
  }

  lemma {:induction false} LogIsOfKind(s: State, events: seq<Event>, c: Config, kind: Kind)
    ensures forall l <- Noted(s, events, c, kind).log :: l.item.Kind() == kind
  {
    hide Run, Surviving;
    if events != [] {
      LogIsOfKind(s, events[..|events| - 1], c, kind);
    }
  }

  lemma OneHook(e: Entry, c: Config)
    ensures PerformAll([e], c) == [Perform(e, c)]
    ensures PerformAll([], c) == []
  {
  }

  /** One commit: the surviving messages leave as one regrouped run, the surviving items as one
      push, and nothing leaves when nothing survives. */
  lemma CommitRuns(s: State, h: History, c: Config, kind: Kind)
    requires Inv(s, h, kind) && Commits(s, Leave(false))
    ensures var ran := PerformAll(s.runOnCommit, c);
            var due := Surviving(h.log, h);
            && Left(s, false, c).ran == s.ran + ran
            && (kind == Messages ==>
                  Delivery(ran) == if due == [] then [] else Delivered(Collapsed(Posts(due), c.threshold, c.batchable)))
            && (kind == Related ==> Pushed(ran) == if due == [] then [] else [Pks(due)])
  {
    hide Surviving, Of, PerformAll, Delivery, Pushed, Collapsed, Posts, Pks;
    var hooks := Of(s.runOnCommit, kind);
    DeliveryOfHooks(s.runOnCommit, c);
    if hooks == [] {
      NothingRuns(c);
    } else {
      assert hooks == [hooks[0]];
      OneHook(hooks[0], c);
      OfIsOfKind(s.runOnCommit, kind);
      DeliveryOfOne(Perform(hooks[0], c));
    }
  }

  lemma NothingRuns(c: Config)
    ensures Delivery(PerformAll([], c)) == [] && Pushed(PerformAll([], c)) == []
  {
  }

  lemma {:induction false} OfIsOfKind(hooks: seq<Entry>, kind: Kind)
    ensures forall e <- Of(hooks, kind) :: e.kind == kind
  {
    if hooks != [] {
      OfIsOfKind(hooks[..|hooks| - 1], kind);
    }
  }

  /** Whatever happens, what an event delivers is, group by group, what it makes due. */
  lemma StepDelivers(s: State, h: History, e: Event, c: Config, key: Key)
    requires Inv(s, h, Messages)
    ensures Group(Delivery(Step(s, e, c).ran), key) ==
            Group(Delivery(s.ran), key) + Group(Posts(Due(s, h, e)), key)
  {
    hide Inv, Surviving, Delivery, Collapsed, Delivered, PerformAll, Group, Posts, Nested;
    var due := Due(s, h, e);
    NoPosts(key);
    if Commits(s, e) {
      CommitRuns(s, h, c, Messages);
      var ran := PerformAll(s.runOnCommit, c);
      DeliveryAppend(s.ran, ran);
      GroupAppend(Delivery(s.ran), Delivery(ran), key);
      CollapseKeepsGroups(Posts(due), c.threshold, c.batchable, key);
    } else if AtOnce(s, e) {
      DeliveryAppend(s.ran, [Immediate(e.item)]);
      DeliveryOfOne(Immediate(e.item));
      OneDelivered(e.item);
      GroupAppend(Delivery(s.ran), Delivery([Immediate(e.item)]), key);
    } else {
      assert Step(s, e, c).ran == s.ran;
    }
  }

  lemma NoPosts(key: Key)
    ensures Posts([]) == [] && Group([], key) == []
  {
  }

  lemma OneDelivered(item: Item)
    ensures Posts([item]) == match Immediate(item) case Sends(sent) => Delivered(sent) case _ => []
  {
    assert [item][..0] == [];
    if item.Msg? {
      assert [One(item.post)][..0] == [];
    }
  }

  /** Over any run of any number of transactions: for every action and target, exactly the
      messages that survive arrive, each once, in the order they were published. */
  lemma {:induction false} RunDelivers(s: State, events: seq<Event>, c: Config, key: Key)
    requires Idle(s)
    ensures Group(Delivery(Run(s, events, c).ran), key) ==
            Group(Delivery(s.ran), key) + Group(PostsDue(AllDue(s, events, c, Messages)), key)
  {
    hide Step, Note, Delivery, Group, Due, Posts;
    if events == [] {
      NoPosts(key);
    } else {
      var init, e := events[..|events| - 1], events[|events| - 1];
      var t, h := Run(s, init, c), Noted(s, init, c, Messages);
      RunDelivers(s, init, c, key);
      RunKeeps(s, init, c, Messages);
      StepDelivers(t, h, e, c, key);
      var all := AllDue(s, init, c, Messages);
      assert (all + [Due(t, h, e)])[..|all|] == all;
      GroupAppend(PostsDue(all), Posts(Due(t, h, e)), key);
    }
  }

  lemma StepPushes(s: State, h: History, e: Event, c: Config)
    requires Inv(s, h, Related)
    requires forall l <- h.log :: l.item.Kind() == Related
    ensures Pushed(Step(s, e, c).ran) == Pushed(s.ran) + if Pks(Due(s, h, e)) == {} then [] else [Pks(Due(s, h, e))]
  {
    hide Inv, Surviving, Pushed, Pks, Collapsed, Delivered, PerformAll, Nested;
    var due := Due(s, h, e);
    PksOfAll(due);
    if Commits(s, e) {
      CommitRuns(s, h, c, Related);
      DeliveryAppend(s.ran, PerformAll(s.runOnCommit, c));
      PostsAreOfKind(h.log, h, Related);
    } else if AtOnce(s, e) {
      DeliveryAppend(s.ran, [Immediate(e.item)]);
      DeliveryOfOne(Immediate(e.item));
      OneItem(e.item);
    } else {
      assert Step(s, e, c).ran == s.ran;
    }
  }

  lemma OneItem(item: Item)
    ensures item.Msg? ==> Posts([item]) == [item.post]
    ensures Pks([item]) == if item.Pk? then {item.pk} else {}
  {
    assert [item][..0] == [] && item in [item];
  }

  lemma PksOfAll(items: seq<Item>)
    ensures items == [] ==> Pks(items) == {}
    ensures items != [] && (forall item <- items :: item.Kind() == Related) ==> Pks(items) != {}
  {
    if items != [] && forall item <- items :: item.Kind() == Related {
      assert items[0] in items;
      assert items[0].pk in Pks(items);
    }
  }

  /** And every commit pushes exactly the agenda items that survive, in one push. */
  lemma {:induction false} RunPushes(s: State, events: seq<Event>, c: Config)
    requires Idle(s)
    ensures Pushed(Run(s, events, c).ran) == Pushed(s.ran) + PksDue(AllDue(s, events, c, Related))
  {
    hide Step, Note, Pushed, Due, Pks;
    if events != [] {
      var init, e := events[..|events| - 1], events[|events| - 1];
      var t, h := Run(s, init, c), Noted(s, init, c, Related);
      RunPushes(s, init, c);
      RunKeeps(s, init, c, Related);
      LogIsOfKind(s, init, c, Related);
      StepPushes(t, h, e, c);
      var all := AllDue(s, init, c, Related);
      assert (all + [Due(t, h, e)])[..|all|] == all;
    }
  }

  /** In particular nothing is lost: an item put off under savepoints none of which was rolled
      back survives. */
  lemma {:induction false} NothingLost(h: History, log: seq<Logged>, l: Logged)
    requires l in log && l.sids !! h.rolledBack
    ensures l.item in Surviving(log, h)
  {
    if l == log[|log| - 1] {
      assert Survives(l, h);
    } else {
      assert log == log[..|log| - 1] + [log[|log| - 1]];
      NothingLost(h, log[..|log| - 1], l);
    }
  }

  /** Rolling a savepoint back drops everything of a kind that waits, or nothing of it: all of
      it exactly when nothing was waiting when the savepoint was opened. */
  lemma RollbackIsAllOrNothing(s: State, h: History, raised: bool, c: Config, kind: Kind)
    requires Inv(s, h, kind) && RollsBack(s, raised)
    ensures Of(Left(s, raised, c).runOnCommit, kind) ==
            if s.savepointIds[|s.savepointIds| - 1] in h.early then Of(s.runOnCommit, kind) else []
  {
    hide Surviving, Of, Without;
    var sid := s.savepointIds[|s.savepointIds| - 1];
    PopKeepsNested(s);
    forall other <- s.savepointIds ensures other.Some? ==> other.value <= sid.value {
      var t := s.(savepointIds := s.savepointIds[..|s.savepointIds| - 1]);
      assert s.savepointIds == t.savepointIds + [sid];
      assert other == sid || other in Open(t);
    }
    if sid in h.early {
      RollbackEarlyKeeps(s, h, kind, sid);
    } else {
      RollbackLateKeeps(s, h, kind, sid);
    }
  }

  lemma RegisterFirst(s: State, item: Item)
    requires s.inAtomicBlock && s.runOnCommit == []
    ensures Registered(s, item) == s.(runOnCommit := [Entry(Open(s), item.Kind(), [item])])
  {
  }

  lemma RegisterNext(s: State, item: Item, e: Entry)
    requires s.inAtomicBlock && s.runOnCommit == [e] && e.kind == item.Kind() != Foreign
    ensures Registered(s, item) == s.(runOnCommit := [e.(items := e.items + [item])])
  {
    assert [e][..0] == [];
    assert [e][0 := e.(items := e.items + [item])] == [e.(items := e.items + [item])];
  }

  lemma WithoutOne(e: Entry, sid: Sid)
    requires sid !in e.sids
    ensures Without([e], sid) == [e]
  {
    assert [e][..0] == [];
  }

  lemma TwoItems(a: Item, b: Item)
    ensures Posts([a, b]) == Posts([a]) + Posts([b]) && Pks([a, b]) == Pks([a]) + Pks([b])
  {
    assert [a, b][..1] == [a] && [a][..0] == [] && [b][..0] == [];
    assert a in [a, b] && b in [a, b] && a in [a] && b in [b];
  }

  /** So what is put off under a savepoint that is rolled back is run all the same when something
      of its kind was waiting before. */
  lemma OutlivesItsSavepoint(s: State, first: Item, second: Item, c: Config)
    requires Idle(s) && first.Kind() == second.Kind() != Foreign
    ensures var begun := Registered(Entered(s, true), first);
            var inner := Registered(Entered(begun, true), second);
            var done := Left(Left(inner, true, c), false, c);
            done.ran == s.ran + [Perform(Entry({}, first.Kind(), [first, second]), c)]
  {
    hide Registered, Without, PerformAll, Perform;
    var begun := Registered(Entered(s, true), first);
    RegisterFirst(Entered(s, true), first);
    assert Open(Entered(s, true)) == {};
    var e := Entry({}, first.Kind(), [first]);
    RegisterNext(Entered(begun, true), second, e);
    var both := Entry({}, first.Kind(), [first, second]);
    assert e.(items := e.items + [second]) == both;
    WithoutOne(both, Some(s.nextSid));
    OneHook(both, c);
  }

  /** An input: the push reaches an agenda item whose change was rolled back. */
  lemma PushOutlivesRollback(s: State, first: int, second: int, c: Config)
    requires Idle(s)
    ensures var begun := Registered(Entered(s, true), Pk(first));
            var inner := Registered(Entered(begun, true), Pk(second));
            Left(Left(inner, true, c), false, c).ran == s.ran + [Pushes({first, second})]
  {
    hide Registered, Entered, Left, Pks;
    OutlivesItsSavepoint(s, Pk(first), Pk(second), c);
    TwoItems(Pk(first), Pk(second));
    OneItem(Pk(first));
    OneItem(Pk(second));
    assert {first} + {second} == {first, second};
  }

  /** An input: a message is sent whose savepoint was rolled back. */
  lemma MessageOutlivesRollback(s: State, first: Post, second: Post, c: Config)
    requires Idle(s)
    ensures var begun := Registered(Entered(s, true), Msg(first));
            var inner := Registered(Entered(begun, true), Msg(second));
            Left(Left(inner, true, c), false, c).ran ==
            s.ran + [Sends(Collapsed([first, second], c.threshold, c.batchable))]
  {
    hide Registered, Entered, Left, Posts, Collapsed;
    OutlivesItsSavepoint(s, Msg(first), Msg(second), c);
    TwoItems(Msg(first), Msg(second));
    OneItem(Msg(first));
    OneItem(Msg(second));
    assert [first] + [second] == [first, second];
  }
}
