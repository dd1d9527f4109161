/** Who is in which channel-layer group: the subscribe protocol between one consumer, the worker
    that runs its jobs and the groups (voteit/messaging/consumer.py, voteit/messaging/jobs.py). */
module Subscriptions {

  // ------------------------------------------------------------- data model

  /** A context channel. Its group is named after both parts, so a group has one ref. */
  datatype Ref = Ref(channelType: string, pk: int)

  datatype Job = SubscribeJob(ref: Ref) | RecheckJob(refs: seq<Ref>)

  /** What reaches the consumer through the channel layer. `Forwarded` stands for everything
      that is only passed on to the client. */
  datatype Event = Subscribed(ref: Ref) | Left(ref: Ref) | RecheckAsked | Forwarded

  /** Where the worker is within a job: it has joined a group and not yet said so, or is half way
      through a list of refs, or has left a group and not yet said so. */
  datatype Worker =
    | Resting
    | Announcing(ref: Ref)
    | Rechecking(refs: seq<Ref>)
    | Dropping(ref: Ref, refs: seq<Ref>)

  datatype State = State(
    group: set<Ref>,         // the groups the consumer's channel is in
    channelSubs: set<Ref>,   // the groups the consumer knows of
    pending: seq<Event>,     // on their way to the consumer, first in first out
    jobs: seq<Job>,
    worker: Worker,
    leaving: seq<Ref>)       // leave handlers that discarded the group and not yet the ref

  datatype Step =
    | ClientSubscribe(ref: Ref, known: bool)
    | ClientLeave(ref: Ref)
    | FinishLeave(i: nat)
    | AskRecheck
    | Forward
    | HandleEvent(order: seq<Ref>)
    | TakeJob(allowed: bool)
    | ExpireJob
    | Announce
    | RecheckNext(allowed: bool)
    | AnnounceLeft
    | CrashJob

  // ------------------------------------------------------------ the machine

  predicate Enabled(s: State, e: Step) {
    match e
    case ClientSubscribe(_, _) => true
    case ClientLeave(_) => true
    case FinishLeave(i) => i < |s.leaving|
    case AskRecheck => true
    case Forward => true
    case HandleEvent(order) => s.pending != [] && (set ref <- order) == s.channelSubs
    case TakeJob(_) => s.worker == Resting && s.jobs != []
    case ExpireJob => s.worker == Resting && s.jobs != []
    case Announce => s.worker.Announcing?
    case RecheckNext(_) => s.worker.Rechecking?
    case AnnounceLeft => s.worker.Dropping?
    case CrashJob => s.worker != Resting
  }

  function Next(s: State, e: Step): State
    requires Enabled(s, e)
  {
    match e
    case ClientSubscribe(ref, known) => if known then s.(jobs := s.jobs + [SubscribeJob(ref)]) else s
    case ClientLeave(ref) => s.(group := s.group - {ref}, leaving := s.leaving + [ref])
    case FinishLeave(i) =>
      s.(channelSubs := s.channelSubs - {s.leaving[i]}, leaving := s.leaving[..i] + s.leaving[i + 1..])
    case AskRecheck => s.(pending := s.pending + [RecheckAsked])
    case Forward => s.(pending := s.pending + [Forwarded])
    case HandleEvent(order) => Handled(s, order)
    case TakeJob(allowed) => Taken(s, allowed)
    case ExpireJob => s.(jobs := s.jobs[1..])
    case Announce => s.(pending := s.pending + [Subscribed(s.worker.ref)], worker := Resting)
    case RecheckNext(allowed) => Rechecked(s, allowed)
    case AnnounceLeft => s.(pending := s.pending + [Left(s.worker.ref)], worker := Rechecking(s.worker.refs))
    case CrashJob => s.(worker := Resting)
  }

  /** The handlers of the consumer, in the order the events arrive. `order` is the order in which
      the set of subscriptions happens to be listed. */
  function Handled(s: State, order: seq<Ref>): State
    requires s.pending != []
  {
    var t := s.(pending := s.pending[1..]);
    match s.pending[0]
    case Subscribed(ref) => t.(channelSubs := s.channelSubs + {ref})
    case Left(ref) => t.(channelSubs := s.channelSubs - {ref})
    case RecheckAsked => if s.channelSubs == {} then t else t.(jobs := s.jobs + [RecheckJob(order)])
    case Forwarded => t
  }

  function Taken(s: State, allowed: bool): State
    requires s.jobs != []
  {
    var t := s.(jobs := s.jobs[1..]);
    match s.jobs[0]
    case SubscribeJob(ref) =>
      if allowed then t.(group := s.group + {ref}, worker := Announcing(ref))
      else t.(pending := s.pending + [Forwarded])
    case RecheckJob(refs) => t.(worker := Rechecking(refs))
  }

  function Rechecked(s: State, allowed: bool): State
    requires s.worker.Rechecking?
  {
    var refs := s.worker.refs;
    if refs == [] then s.(worker := Resting)
    else if allowed then s.(worker := Rechecking(refs[1..]))
    else s.(group := s.group - {refs[0]}, worker := Dropping(refs[0], refs[1..]))
  }

  /** Disconnecting leaves every group the consumer knows of, and only those. */
  function Disconnected(s: State): State {
    s.(group := s.group - s.channelSubs)
  }

  /** A consumer as it connects: subscribed to its organisation, if it has one, without a job. */
  predicate Connected(s: State) {
    s.group == s.channelSubs && s.pending == [] && s.jobs == [] && s.worker == Resting && s.leaving == []
  }

  // ------------------------------------------- what a client gets when nothing interferes

  /** Subscribing ends with the ref joined and known, if the channel is known and the user allowed;
      otherwise the client is told, or nothing happens at all, and no group is joined. */
  lemma SubscribeReaches(s: State, ref: Ref, order: seq<Ref>)
    requires s.worker == Resting && s.jobs == [] && s.pending == [] && (set r <- order) == s.channelSubs
    ensures var asked := Next(s, ClientSubscribe(ref, true));
            && Enabled(asked, TakeJob(true)) && Enabled(Next(asked, TakeJob(true)), Announce)
            && var announced := Next(Next(asked, TakeJob(true)), Announce);
               && Enabled(announced, HandleEvent(order))
               && Next(announced, HandleEvent(order)) ==
                    s.(group := s.group + {ref}, channelSubs := s.channelSubs + {ref})
               && Enabled(asked, TakeJob(false))
               && Next(asked, TakeJob(false)) == s.(pending := [Forwarded])
    ensures Next(s, ClientSubscribe(ref, false)) == s
  {
    assert s.pending + [Subscribed(ref)] == [Subscribed(ref)] && s.pending + [Forwarded] == [Forwarded];
    assert (s.jobs + [SubscribeJob(ref)])[1..] == s.jobs;
  }

  /** A recheck that is asked for is queued behind the other jobs, for exactly the groups the consumer
      knows of, unless there are none. */
  lemma RecheckIsQueued(s: State, order: seq<Ref>)
    requires Enabled(s, HandleEvent(order)) && s.pending[0] == RecheckAsked
    ensures var t := Next(s, HandleEvent(order));
            && t == s.(pending := s.pending[1..], jobs := t.jobs)
            && (s.channelSubs == {} ==> t.jobs == s.jobs)
            && (s.channelSubs != {} ==>
                  exists refs: seq<Ref> :: t.jobs == s.jobs + [RecheckJob(refs)] && (set r <- refs) == s.channelSubs)
  {
    assert s.jobs + [] == s.jobs;
    assert (set r <- order) == s.channelSubs;
  }

  /** Leaving ends with the ref neither joined nor known, and nothing else changed. */
  lemma LeaveReaches(s: State, ref: Ref)
    ensures var left := Next(s, ClientLeave(ref));
            && Enabled(left, FinishLeave(|s.leaving|))
            && Next(left, FinishLeave(|s.leaving|)) ==
                 s.(group := s.group - {ref}, channelSubs := s.channelSubs - {ref})
  {
    assert (s.leaving + [ref])[..|s.leaving|] + (s.leaving + [ref])[|s.leaving| + 1..] == s.leaving;
  }

  // ------------------------------------------------------------ the invariant

  predicate About(e: Event, ref: Ref) {
    (e.Subscribed? || e.Left?) && e.ref == ref
  }

  predicate Mentioned(pending: seq<Event>, ref: Ref) {
    exists i :: 0 <= i < |pending| && About(pending[i], ref)
  }

  /** The last pending event about the ref says that it is subscribed. */
  predicate SaidLast(pending: seq<Event>, ref: Ref) {
    if pending == [] then false
    else if About(pending[|pending| - 1], ref) then pending[|pending| - 1].Subscribed?
    else SaidLast(pending[..|pending| - 1], ref)
  }

  /** The consumer knows of the membership, or is about to. */
  predicate Known(s: State, ref: Ref) {
    SaidLast(s.pending, ref) || (ref in s.channelSubs && !Mentioned(s.pending, ref))
  }

  ghost predicate Inv(s: State) {
    && (forall ref <- s.group :: s.worker == Announcing(ref) || Known(s, ref))
    && (s.worker.Dropping? ==> s.worker.ref !in s.group)
  }

  /** The two ways in which a membership is forgotten: a job that dies after it joined a group
      the consumer does not know of, and a leave handler that only now discards a ref which
      has been joined again, and announced, since it left the group. */
  predicate Forgets(s: State, e: Step)
    requires Enabled(s, e)
  {
    match e
    case CrashJob => s.worker.Announcing? && s.worker.ref in s.group && !Known(s, s.worker.ref)
    case FinishLeave(i) =>
      var ref := s.leaving[i];
      ref in s.group && s.worker != Announcing(ref) && !SaidLast(s.pending, ref)
    case _ => false
  }

  lemma {:induction false} SaidIsMentioned(pending: seq<Event>, ref: Ref)
    ensures SaidLast(pending, ref) ==> Mentioned(pending, ref)
  {
    if pending != [] && !About(pending[|pending| - 1], ref) {
      SaidIsMentioned(pending[..|pending| - 1], ref);
      if SaidLast(pending, ref) {
        var i :| 0 <= i < |pending| - 1 && About(pending[..|pending| - 1][i], ref);
        assert About(pending[i], ref);
      }
    }
  }

  lemma SaidSnoc(pending: seq<Event>, e: Event, ref: Ref)
    ensures SaidLast(pending + [e], ref) == if About(e, ref) then e.Subscribed? else SaidLast(pending, ref)
    ensures Mentioned(pending + [e], ref) == (About(e, ref) || Mentioned(pending, ref))
  {
    assert (pending + [e])[..|pending|] == pending;
    if About(e, ref) {
      assert About((pending + [e])[|pending|], ref);
    } else if Mentioned(pending, ref) {
      var i :| 0 <= i < |pending| && About(pending[i], ref);
      assert About((pending + [e])[i], ref);
    }
  }

  /** Handling the first event leaves the rest with the last word. */
  lemma {:induction false} SaidTail(pending: seq<Event>, ref: Ref)
    requires pending != []
    ensures Mentioned(pending[1..], ref) ==> SaidLast(pending[1..], ref) == SaidLast(pending, ref)
    ensures !Mentioned(pending[1..], ref) ==> SaidLast(pending, ref) == (pending[0] == Subscribed(ref))
    ensures Mentioned(pending, ref) == (About(pending[0], ref) || Mentioned(pending[1..], ref))
  {
    if |pending| == 1 {
      assert pending[1..] == [];
    } else {
      var init, last := pending[..|pending| - 1], pending[|pending| - 1];
      SaidTail(init, ref);
      assert pending[1..] == init[1..] + [last] && pending == init + [last];
      SaidSnoc(init[1..], last, ref);
      SaidSnoc(init, last, ref);
    }
  }

  lemma HandleKeeps(s: State, order: seq<Ref>)
    requires Inv(s) && Enabled(s, HandleEvent(order))
    ensures Inv(Handled(s, order))
  {
    hide SaidLast, Mentioned;
    var t := Handled(s, order);
    forall ref <- t.group ensures t.worker == Announcing(ref) || Known(t, ref) {
      SaidTail(s.pending, ref);
      SaidIsMentioned(t.pending, ref);
    }
  }

  lemma AppendKeeps(s: State, t: State, e: Event)
    requires Inv(s) && t.pending == s.pending + [e] && t.group == s.group && t.channelSubs == s.channelSubs
    requires !t.worker.Dropping?
    requires s.worker == t.worker || s.worker.Dropping? || (s.worker.Announcing? && e == Subscribed(s.worker.ref))
    requires e.Left? ==> e.ref !in s.group
    ensures Inv(t)
  {
    hide SaidLast, Mentioned;
    forall ref <- t.group ensures t.worker == Announcing(ref) || Known(t, ref) {
      SaidSnoc(s.pending, e, ref);
    }
  }

  /** A step keeps the invariant exactly when it does not forget a membership. */
  lemma StepExact(s: State, e: Step)
    requires Inv(s) && Enabled(s, e)
    ensures Inv(Next(s, e)) <==> !Forgets(s, e)
  {
    hide SaidLast, Mentioned;
    var t := Next(s, e);
    match e
    case HandleEvent(order) => HandleKeeps(s, order);
    case Announce => AppendKeeps(s, t, Subscribed(s.worker.ref));
    case AnnounceLeft => AppendKeeps(s, t, Left(s.worker.ref));
    case AskRecheck => AskKeeps(s, RecheckAsked);
    case Forward => AskKeeps(s, Forwarded);
    case TakeJob(allowed) =>
      if s.jobs[0].SubscribeJob? && !allowed {
        AppendKeeps(s, t, Forwarded);
      }
    case CrashJob =>
    case FinishLeave(i) => SaidIsMentioned(s.pending, s.leaving[i]);
    case _ =>
  }

  lemma AskKeeps(s: State, e: Event)
    requires Inv(s) && !e.Left? && !e.Subscribed?
    ensures Inv(s.(pending := s.pending + [e]))
  {
    hide SaidLast, Mentioned;
    forall ref <- s.group ensures s.worker == Announcing(ref) || Known(s.(pending := s.pending + [e]), ref) {
      SaidSnoc(s.pending, e, ref);
    }
  }

  // ------------------------------------------------------------------- runs

  ghost predicate IsRun(run: seq<State>, steps: seq<Step>) {
    && |run| == |steps| + 1
    && Connected(run[0])
    && forall k :: 0 <= k < |steps| ==> Enabled(run[k], steps[k]) && run[k + 1] == Next(run[k], steps[k])
  }

  ghost predicate NeverForgets(run: seq<State>, steps: seq<Step>)
    requires IsRun(run, steps)
  {
    forall k :: 0 <= k < |steps| ==> !Forgets(run[k], steps[k])
  }

  lemma {:induction false} RunKeeps(run: seq<State>, steps: seq<Step>, n: nat)
    requires IsRun(run, steps) && NeverForgets(run, steps) && n <= |steps|
    ensures Inv(run[n])
  {
    if n > 0 {
      RunKeeps(run, steps, n - 1);
      assert Enabled(run[n - 1], steps[n - 1]) && run[n - 1 + 1] == Next(run[n - 1], steps[n - 1]);
      StepExact(run[n - 1], steps[n - 1]);
    }
  }

  /** A run keeps track of every membership throughout exactly when no step of it forgets one. */
  lemma RunExact(run: seq<State>, steps: seq<Step>)
    requires IsRun(run, steps)
    ensures NeverForgets(run, steps) <==> forall k :: 0 <= k < |run| ==> Inv(run[k])
  {
    hide Inv, Forgets, Next;
    if NeverForgets(run, steps) {
      forall k | 0 <= k < |run| ensures Inv(run[k]) {
        RunKeeps(run, steps, k);
      }
    } else {
      var k :| 0 <= k < |steps| && Forgets(run[k], steps[k]);
      assert run[k + 1] == Next(run[k], steps[k]);
      if Inv(run[k]) {
        StepExact(run[k], steps[k]);
      }
    }
  }

  /** Nothing in flight that could still change what the consumer knows. */
  predicate Quiet(s: State) {
    s.worker == Resting && forall k :: 0 <= k < |s.pending| ==> s.pending[k].Forwarded? || s.pending[k].RecheckAsked?
  }

  lemma {:induction false} NothingSaid(pending: seq<Event>, ref: Ref)
    requires forall k :: 0 <= k < |pending| ==> pending[k].Forwarded? || pending[k].RecheckAsked?
    ensures !SaidLast(pending, ref) && !Mentioned(pending, ref)
  {
    if pending != [] {
      NothingSaid(pending[..|pending| - 1], ref);
    }
  }

  /** With nothing in flight, disconnecting leaves every group exactly when the invariant holds. */
  lemma DisconnectLeavesAll(s: State)
    requires Quiet(s)
    ensures Disconnected(s).group == {} <==> Inv(s)
  {
    forall ref <- s.group ensures Known(s, ref) <==> ref in s.channelSubs {
      NothingSaid(s.pending, ref);
    }
    forall ref <- s.group ensures ref in Disconnected(s).group <==> ref !in s.channelSubs {
    }
  }

  /** What can be asked of a schedule: no worker dies between joining and announcing, and no
      subscription is granted while a leave handler for the same ref still waits. */
  predicate Orderly(s: State, e: Step)
    requires Enabled(s, e)
  {
    match e
    case CrashJob => !s.worker.Announcing?
    case TakeJob(allowed) => !(allowed && s.jobs[0].SubscribeJob? && s.jobs[0].ref in s.leaving)
    case _ => true
  }

  ghost predicate AllOrderly(run: seq<State>, steps: seq<Step>)
    requires IsRun(run, steps)
  {
    forall k :: 0 <= k < |steps| ==> Orderly(run[k], steps[k])
  }

  /** Groups with a leave handler waiting stay left. */
  ghost predicate LeftStayLeft(s: State) {
    forall ref <- s.leaving :: ref !in s.group
  }

  lemma OrderlyKeeps(s: State, e: Step)
    requires Enabled(s, e) && Orderly(s, e) && LeftStayLeft(s)
    ensures !Forgets(s, e) && LeftStayLeft(Next(s, e))
  {
    hide SaidLast, Mentioned, Known;
    if e.FinishLeave? {
      assert s.leaving[e.i] in s.leaving;
      assert forall ref <- s.leaving[..e.i] + s.leaving[e.i + 1..] :: ref in s.leaving;
    }
  }

  lemma {:induction false} OrderlyRun(run: seq<State>, steps: seq<Step>, n: nat)
    requires IsRun(run, steps) && AllOrderly(run, steps) && n <= |steps|
    ensures LeftStayLeft(run[n])
  {
    hide Forgets, Orderly, Next;
    if n > 0 {
      OrderlyRun(run, steps, n - 1);
      assert Enabled(run[n - 1], steps[n - 1]) && run[n - 1 + 1] == Next(run[n - 1], steps[n - 1]);
      OrderlyKeeps(run[n - 1], steps[n - 1]);
    }
  }

  /** An orderly run forgets no membership. */
  lemma OrderlyNeverForgets(run: seq<State>, steps: seq<Step>)
    requires IsRun(run, steps) && AllOrderly(run, steps)
    ensures NeverForgets(run, steps)
  {
    hide Forgets, Orderly, Next, LeftStayLeft;
    forall k | 0 <= k < |steps| ensures !Forgets(run[k], steps[k]) {
      OrderlyRun(run, steps, k);
      OrderlyKeeps(run[k], steps[k]);
    }
  }

  /** So after any orderly run a disconnect with nothing in flight leaves every group. */
  lemma RunLeavesAll(run: seq<State>, steps: seq<Step>)
    requires IsRun(run, steps) && AllOrderly(run, steps) && Quiet(run[|steps|])
    ensures Disconnected(run[|steps|]).group == {}
  {
    OrderlyNeverForgets(run, steps);
    RunKeeps(run, steps, |steps|);
    DisconnectLeavesAll(run[|steps|]);
  }

  /** A worker that dies between joining and announcing leaves a membership behind that survives
      the disconnect. */
  lemma CrashIsForgotten(s: State, ref: Ref)
    requires Connected(s) && ref !in s.group
    ensures var steps := [ClientSubscribe(ref, true), TakeJob(true), CrashJob];
            var asked := Next(s, steps[0]);
            var joined := Next(asked, steps[1]);
            var run := [s, asked, joined, Next(joined, steps[2])];
            IsRun(run, steps) && Quiet(run[3]) && Disconnected(run[3]).group == {ref}
  {
    var a := Next(s, ClientSubscribe(ref, true));
    var b := Next(a, TakeJob(true));
    var c := Next(b, CrashJob);
    assert c.group - c.channelSubs == {ref};
  }

  /** So does a client that leaves and subscribes again while its leave handler still waits for
      the channel layer. */
  lemma LateLeaveIsForgotten(s: State, ref: Ref)
    requires Connected(s)
    ensures var a := Next(s, ClientLeave(ref));
            var b := Next(Next(a, ClientSubscribe(ref, true)), TakeJob(true));
            var c := Next(b, Announce);
            && Enabled(c, HandleEvent(SeqOf(c.channelSubs)))
            && var d := Next(c, HandleEvent(SeqOf(c.channelSubs)));
               && Enabled(d, FinishLeave(0))
               && Quiet(Next(d, FinishLeave(0)))
               && ref in Disconnected(Next(d, FinishLeave(0))).group
  {
  }

  ghost function SeqOf(refs: set<Ref>): (order: seq<Ref>)
    ensures (set ref <- order) == refs
  {
    if refs == {} then [] else
      var ref :| ref in refs;
      var rest := SeqOf(refs - {ref});
      assert refs == (refs - {ref}) + {ref};
      [ref] + rest
  }
}
