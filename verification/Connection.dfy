/** The objects behind the deferred work: Django's connection with its list of hooks, the
    transaction batcher and the related-modified push. Each method is tied to the machine of
    module Transaction. */
module Connection {
  import opened Collections
  import opened Collapse
  import opened Transaction

  class TransactionBatcher {
    var data: seq<Post>

    constructor ()
      ensures data == []
    {
      data := [];
    }

    method Add(post: Post)
      modifies this
      ensures data == old(data) + [post]
    {
      data := data + [post];
    }
  }

  class RelatedModifiedPush {
    var pks: set<int>

    constructor (pk: int)
      ensures pks == {pk}
    {
      pks := {pk};
    }
  }

  datatype Hook = Batch(batcher: TransactionBatcher) | Push(push: RelatedModifiedPush) | Other(id: int)

  datatype Registration = Registration(sids: set<Sid>, hook: Hook)

  function Objects(hooks: seq<Registration>): set<object> {
    (set r <- hooks | r.hook.Batch? :: r.hook.batcher) + (set r <- hooks | r.hook.Push? :: r.hook.push)
  }

  function KindOf(h: Hook): Kind {
    match h
    case Batch(_) => Messages
    case Push(_) => Related
    case Other(_) => Foreign
  }

  /** The hook object holds what the entry says. */
  ghost predicate Holds(h: Hook, items: seq<Item>)
    reads if h.Batch? then {h.batcher} else {}, if h.Push? then {h.push} else {}
  {
    match h
    case Batch(b) => |items| == |b.data| && forall k :: 0 <= k < |items| ==> items[k] == Msg(b.data[k])
    case Push(p) => (forall item <- items :: item.Pk?) && p.pks == Pks(items)
    case Other(id) => items == [Call(id)]
  }

  ghost predicate Ties(r: Registration, e: Entry)
    reads if r.hook.Batch? then {r.hook.batcher} else {}, if r.hook.Push? then {r.hook.push} else {}
  {
    r.sids == e.sids && KindOf(r.hook) == e.kind && Holds(r.hook, e.items)
  }

  /** Distinct hook objects, each holding what its entry says. */
  ghost predicate AllTied(hooks: seq<Registration>, entries: seq<Entry>)
    reads Objects(hooks)
  {
    && |hooks| == |entries|
    && (forall i :: 0 <= i < |hooks| ==> Ties(hooks[i], entries[i]))
    && (forall i, j :: 0 <= i < j < |hooks| && !hooks[i].hook.Other? ==> hooks[i].hook != hooks[j].hook)
  }

  function Kept(hooks: seq<Registration>, sid: Sid): seq<Registration> {
    if hooks == [] then []
    else if sid in hooks[|hooks| - 1].sids then Kept(hooks[..|hooks| - 1], sid)
    else Kept(hooks[..|hooks| - 1], sid) + [hooks[|hooks| - 1]]
  }

  lemma {:induction false} KeptAreTied(hooks: seq<Registration>, entries: seq<Entry>, sid: Sid)
    requires AllTied(hooks, entries)
    ensures forall r <- Kept(hooks, sid) :: r in hooks
    ensures Objects(Kept(hooks, sid)) <= Objects(hooks)
    ensures AllTied(Kept(hooks, sid), Without(entries, sid))
  {
    hide Holds;
    if hooks != [] {
      var init, last := hooks[..|hooks| - 1], hooks[|hooks| - 1];
      KeptAreTied(init, entries[..|entries| - 1], sid);
      assert forall r <- init :: r in hooks;
      assert Ties(last, entries[|entries| - 1]);
      forall r <- Kept(init, sid) | !r.hook.Other? ensures r.hook != last.hook {
        var k :| 0 <= k < |init| && init[k] == r;
        assert hooks[k] == r;
      }
    }
  }

  /** Finding the batcher, or making an empty one, and then adding to it. */
  lemma LookupThenAdd(s: State, post: Post, t: State)
    requires s.inAtomicBlock
    requires t == if Find(s.runOnCommit, Messages) < |s.runOnCommit| then s
                  else s.(runOnCommit := s.runOnCommit + [Entry(Open(s), Messages, [])])
    ensures var i := Find(s.runOnCommit, Messages);
            && i < |t.runOnCommit|
            && var e := t.runOnCommit[i];
               Registered(s, Msg(post)) == t.(runOnCommit := t.runOnCommit[i := e.(items := e.items + [Msg(post)])])
  {
    hide Find;
    var i := Find(s.runOnCommit, Messages);
    if i == |s.runOnCommit| {
      var e := Entry(Open(s), Messages, []);
      assert [] + [Msg(post)] == [Msg(post)];
      assert (s.runOnCommit + [e])[i := e.(items := [Msg(post)])] == s.runOnCommit + [e.(items := [Msg(post)])];
    }
  }

  lemma PksSnoc(items: seq<Item>, pk: int)
    ensures Pks(items + [Pk(pk)]) == Pks(items) + {pk}
  {
    assert Pk(pk) in items + [Pk(pk)];
    assert forall item <- items :: item in items + [Pk(pk)];
  }

  lemma {:induction false} FindIsFirst(hooks: seq<Entry>, kind: Kind, i: nat)
    requires i <= |hooks|
    requires i < |hooks| ==> hooks[i].kind == kind
    requires forall j :: 0 <= j < i ==> hooks[j].kind != kind
    ensures Find(hooks, kind) == i
  {
    if hooks != [] {
      FindIsFirst(hooks[..|hooks| - 1], kind, if i < |hooks| then i else |hooks| - 1);
    }
  }

  lemma {:induction false} PostsOfMessages(items: seq<Item>, data: seq<Post>)
    requires |items| == |data|
    requires forall k :: 0 <= k < |items| ==> items[k] == Msg(data[k])
    ensures Posts(items) == data
  {
    if items != [] {
      PostsOfMessages(items[..|items| - 1], data[..|data| - 1]);
    }
  }

  class DatabaseConnection {
    const config: Config
    var inAtomicBlock: bool
    var savepointIds: seq<Sid>
    var needsRollback: bool
    var nextSid: nat
    var runOnCommit: seq<Registration>
    var ran: seq<Effect>
    /** The same connection as a value. */
    ghost var view: State

    ghost predicate Tied()
      reads this, Objects(runOnCommit)
    {
      && view.inAtomicBlock == inAtomicBlock
      && view.savepointIds == savepointIds
      && view.needsRollback == needsRollback
      && view.nextSid == nextSid
      && view.ran == ran
      && AllTied(runOnCommit, view.runOnCommit)
    }

    /** Hooks wait only inside of a block. */
    ghost predicate Valid()
      reads this, Objects(runOnCommit)
    {
      Tied() && (!inAtomicBlock ==> runOnCommit == [])
    }

    constructor (config: Config)
      ensures Valid() && Idle(view) && this.config == config && ran == []
    {
      this.config := config;
      inAtomicBlock, savepointIds, needsRollback, nextSid := false, [], false, 0;
      runOnCommit, ran := [], [];
      view := State(false, [], false, 0, [], []);
    }

    method Enter(savepoint: bool)
      requires Valid()
      modifies this
      ensures Valid() && view == Entered(old(view), savepoint)
      ensures runOnCommit == old(runOnCommit)
    {
      if !inAtomicBlock {
        inAtomicBlock := true;
        needsRollback := false;
      } else if savepoint && !needsRollback {
        savepointIds := savepointIds + [Some(nextSid)];
        nextSid := nextSid + 1;
      } else {
        savepointIds := savepointIds + [None];
      }
      view := Entered(view, savepoint);
    }

    /** Marks the current block for rollback, or takes the mark back. */
    method SetRollback(rollback: bool)
      requires Valid()
      modifies this
      ensures Valid() && view == Marked(old(view), rollback)
      ensures runOnCommit == old(runOnCommit)
    {
      if inAtomicBlock {
        needsRollback := rollback;
      }
      view := Marked(view, rollback);
    }

    /** Runs one hook. */
    method Invoke(h: Hook, ghost e: Entry) returns (effect: Effect)
      requires KindOf(h) == e.kind && Holds(h, e.items)
      ensures effect == Perform(e, config)
    {
      match h
      case Batch(b) =>
        PostsOfMessages(e.items, b.data);
        var sent := CollapsePosts(b.data, config.threshold, config.batchable);
        effect := Sends(sent);
      case Push(p) =>
        effect := Pushes(p.pks);
      case Other(id) =>
        assert [Call(id)][..0] == [];
        assert Ids([Call(id)]) == [id];
        effect := Calls([id]);
    }

    method RunHooks()
      requires Tied()
      modifies this
      ensures ran == old(ran) + PerformAll(old(view).runOnCommit, config) && runOnCommit == []
      ensures inAtomicBlock == old(inAtomicBlock) && savepointIds == old(savepointIds)
      ensures needsRollback == old(needsRollback) && nextSid == old(nextSid) && view == old(view)
    {
      var current := runOnCommit;
      runOnCommit := [];
      ghost var entries := view.runOnCommit;
      for i := 0 to |current|
        invariant ran == old(ran) + PerformAll(entries[..i], config)
        invariant runOnCommit == [] && inAtomicBlock == old(inAtomicBlock) && savepointIds == old(savepointIds)
        invariant needsRollback == old(needsRollback) && nextSid == old(nextSid) && view == old(view)
        invariant AllTied(current, entries)
      {
        assert Ties(current[i], entries[i]);
        var effect := Invoke(current[i].hook, entries[i]);
        ran := ran + [effect];
        assert entries[..i + 1][..i] == entries[..i];
        PerformAllSnoc(entries[..i + 1], config);
      }
      assert entries[..|entries|] == entries;
    }

    /** Drops the hooks registered while the savepoint was active. */
    method RollbackTo(sid: Sid)
      requires Tied() && inAtomicBlock
      modifies this
      ensures Valid() && view == old(view).(runOnCommit := Without(old(view).runOnCommit, sid))
      ensures Objects(runOnCommit) <= old(Objects(runOnCommit))
    {
      hide AllTied, Without;
      var kept: seq<Registration> := [];
      KeptAreTied(runOnCommit, view.runOnCommit, sid);
      for i := 0 to |runOnCommit|
        invariant kept == Kept(runOnCommit[..i], sid)
      {
        assert runOnCommit[..i + 1][..i] == runOnCommit[..i];
        if sid !in runOnCommit[i].sids {
          kept := kept + [runOnCommit[i]];
        }
      }
      assert runOnCommit[..|runOnCommit|] == runOnCommit;
      runOnCommit := kept;
      view := view.(runOnCommit := Without(view.runOnCommit, sid));
    }

    method Leave(raised: bool)
      requires Valid()
      modifies this
      ensures Valid() && view == Left(old(view), raised, config)
      ensures Objects(runOnCommit) <= old(Objects(runOnCommit))
    {
      ghost var was := view;
      if inAtomicBlock {
        if savepointIds != [] {
          var sid := savepointIds[|savepointIds| - 1];
          savepointIds := savepointIds[..|savepointIds| - 1];
          view := view.(savepointIds := savepointIds);
          if raised || needsRollback {
            needsRollback := sid.None?;
            view := view.(needsRollback := needsRollback);
            if sid.Some? {
              RollbackTo(sid);
            }
          }
        } else {
          inAtomicBlock := false;
          if !raised && !needsRollback {
            view := view.(inAtomicBlock := false);
            RunHooks();
          } else {
            needsRollback := false;
            runOnCommit := [];
          }
          view := Left(was, raised, config);
        }
      }
    }

    /** Puts a hook off to commit, or runs it at once outside of any block. */
    method OnCommit(h: Hook, ghost items: seq<Item>)
      requires Valid() && Holds(h, items)
      requires !h.Other? ==> forall r <- runOnCommit :: r.hook != h
      modifies this
      ensures Valid()
      ensures view == if old(inAtomicBlock)
                      then old(view).(runOnCommit := old(view).runOnCommit + [Entry(Open(old(view)), KindOf(h), items)])
                      else old(view).(ran := old(view).ran + [Perform(Entry({}, KindOf(h), items), config)])
      ensures runOnCommit == old(runOnCommit) +
              if old(inAtomicBlock) then [Registration((set sid <- old(savepointIds)), h)] else []
    {
      if inAtomicBlock {
        runOnCommit := runOnCommit + [Registration((set sid <- savepointIds), h)];
        view := view.(runOnCommit := view.runOnCommit + [Entry(Open(view), KindOf(h), items)]);
      } else {
        var effect := Invoke(h, Entry({}, KindOf(h), items));
        ran := ran + [effect];
        view := view.(ran := ran);
      }
    }

    /** Where the batcher of the current atomic block is, or nothing outside of one. */
    method GetOrCreateBatcher() returns (at: Option<nat>)
      requires Valid()
      modifies this
      ensures Valid()
      ensures fresh(Objects(runOnCommit) - old(Objects(runOnCommit)))
      ensures at.None? <==> !old(inAtomicBlock)
      ensures at.None? ==> view == old(view)
      ensures at.Some? ==>
                var i := Find(old(view).runOnCommit, Messages);
                && at.value == i < |runOnCommit|
                && runOnCommit[i].hook.Batch?
                && view == if i < |old(view).runOnCommit| then old(view)
                           else old(view).(runOnCommit :=
                                  old(view).runOnCommit + [Entry(Open(old(view)), Messages, [])])
    {
      if !inAtomicBlock {
        return None;
      }
      for i := 0 to |runOnCommit|
        invariant Valid() && view == old(view) && runOnCommit == old(runOnCommit)
        invariant forall j :: 0 <= j < i ==> !runOnCommit[j].hook.Batch?
      {
        if runOnCommit[i].hook.Batch? {
          assert forall j :: 0 <= j <= i ==> Ties(runOnCommit[j], view.runOnCommit[j]);
          FindIsFirst(view.runOnCommit, Messages, i);
          return Some(i);
        }
      }
      assert forall j :: 0 <= j < |runOnCommit| ==> Ties(runOnCommit[j], view.runOnCommit[j]);
      FindIsFirst(view.runOnCommit, Messages, |view.runOnCommit|);
      var batcher := new TransactionBatcher();
      at := Some(|runOnCommit|);
      OnCommit(Batch(batcher), []);
    }

    /** Adds to the hook found at `i`. */
    method AddAt(i: nat, item: Item)
      requires Valid() && i < |runOnCommit| && KindOf(runOnCommit[i].hook) == item.Kind() && !item.Call?
      modifies this`view, Objects([runOnCommit[i]])
      ensures Valid()
      ensures var e := old(view).runOnCommit[i];
              view == old(view).(runOnCommit := old(view).runOnCommit[i := e.(items := e.items + [item])])
    {
      ghost var e := view.runOnCommit[i];
      assert Ties(runOnCommit[i], e);
      assert runOnCommit[i] in [runOnCommit[i]];
      match item {
        case Msg(post) =>
          runOnCommit[i].hook.batcher.Add(post);
        case Pk(pk) =>
          var push := runOnCommit[i].hook.push;
          push.pks := push.pks + {pk};
          PksSnoc(e.items, pk);
      }
      forall j | 0 <= j < |runOnCommit| && j != i ensures Ties(runOnCommit[j], view.runOnCommit[j]) {
        assert old(Ties(runOnCommit[j], view.runOnCommit[j]));
      }
      assert Ties(runOnCommit[i], e.(items := e.items + [item]));
      view := view.(runOnCommit := view.runOnCommit[i := e.(items := e.items + [item])]);
    }

    method Publish(post: Post, onCommit: bool)
      requires Valid()
      modifies this, Objects(runOnCommit)
      ensures Valid()
      ensures view == if onCommit then Registered(old(view), Msg(post)) else SentNow(old(view), Msg(post))
    {
      if onCommit {
        var i := GetOrCreateBatcher();
        if i.Some? {
          LookupThenAdd(old(view), post, view);
          AddAt(i.value, Msg(post));
          return;
        }
      }
      ran := ran + [Sends([One(post)])];
      view := view.(ran := ran);
    }

    /** Where the first push is among the hooks, or behind them all. */
    method FindPush() returns (i: nat)
      requires Valid()
      ensures i == Find(view.runOnCommit, Related) && i <= |runOnCommit|
      ensures i < |runOnCommit| ==> runOnCommit[i].hook.Push?
    {
      i := 0;
      while i < |runOnCommit| && !runOnCommit[i].hook.Push?
        invariant i <= |runOnCommit|
        invariant forall j :: 0 <= j < i ==> !runOnCommit[j].hook.Push?
      {
        i := i + 1;
      }
      assert forall j :: 0 <= j < |runOnCommit| ==> Ties(runOnCommit[j], view.runOnCommit[j]);
      FindIsFirst(view.runOnCommit, Related, i);
    }

    method ScheduleRelatedModifiedPush(pk: int)
      requires Valid()
      modifies this, Objects(runOnCommit)
      ensures Valid() && view == Registered(old(view), Pk(pk))
    {
      var i := FindPush();
      if i < |runOnCommit| {
        AddAt(i, Pk(pk));
      } else {
        var push := new RelatedModifiedPush(pk);
        assert Pk(pk) in [Pk(pk)];
        OnCommit(Push(push), [Pk(pk)]);
      }
    }
  }
}
