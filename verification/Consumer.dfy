/** The handlers of the consumer and the jobs of the worker, as the code has them, each tied to
    the steps of module Subscriptions (voteit/messaging/consumer.py, voteit/messaging/jobs.py). */
module Consumer {
  import opened Collections
  import opened Subscriptions

  /** What a recheck takes away: the refs no longer allowed, in the order they were listed. */
  function Denied(refs: seq<Ref>, allowed: map<Ref, bool>): seq<Ref> {
    if refs == [] then []
    else if refs[|refs| - 1] in allowed && allowed[refs[|refs| - 1]] then Denied(refs[..|refs| - 1], allowed)
    else Denied(refs[..|refs| - 1], allowed) + [refs[|refs| - 1]]
  }

  function Lefts(refs: seq<Ref>): seq<Event> {
    seq(|refs|, k requires 0 <= k < |refs| => Left(refs[k]))
  }

  /** A worker in the middle of a recheck, run to its end. */
  function RanRecheck(s: State, allowed: map<Ref, bool>): State
    requires s.worker.Rechecking?
    decreases |s.worker.refs|
  {
    var refs := s.worker.refs;
    if refs == [] then Next(s, RecheckNext(false))
    else if refs[0] in allowed && allowed[refs[0]] then RanRecheck(Next(s, RecheckNext(true)), allowed)
    else RanRecheck(Next(Next(s, RecheckNext(false)), AnnounceLeft), allowed)
  }

  lemma {:induction false} DeniedHead(refs: seq<Ref>, allowed: map<Ref, bool>)
    requires refs != []
    ensures Denied(refs, allowed) ==
            (if refs[0] in allowed && allowed[refs[0]] then [] else [refs[0]]) + Denied(refs[1..], allowed)
  {
    if |refs| == 1 {
      assert refs[..0] == [] && refs[1..] == [];
    } else {
      var init := refs[..|refs| - 1];
      DeniedHead(init, allowed);
      assert init[1..] == refs[1..][..|refs| - 2];
    }
  }

  lemma NoneDenied(allowed: map<Ref, bool>)
    ensures Denied([], allowed) == [] && Lefts([]) == []
  {
  }

  lemma LeftsCons(ref: Ref, refs: seq<Ref>)
    ensures Lefts([ref] + refs) == [Left(ref)] + Lefts(refs)
  {
  }

  /** In the end the groups of the denied refs are left, all others kept, and the consumer is told
      of each, in order. */
  lemma {:induction false} RecheckLeavesDenied(s: State, allowed: map<Ref, bool>)
    requires s.worker.Rechecking?
    ensures RanRecheck(s, allowed) ==
            var denied := Denied(s.worker.refs, allowed);
            s.(group := s.group - (set ref <- denied), pending := s.pending + Lefts(denied), worker := Resting)
    decreases |s.worker.refs|
  {
    hide Denied, Lefts;
    var refs := s.worker.refs;
    if refs == [] {
      NoneDenied(allowed);
      assert s.pending + [] == s.pending;
    } else {
      DeniedHead(refs, allowed);
      var rest := Denied(refs[1..], allowed);
      if refs[0] in allowed && allowed[refs[0]] {
        RecheckLeavesDenied(Next(s, RecheckNext(true)), allowed);
        assert [] + rest == rest;
      } else {
        RecheckLeavesDenied(Next(Next(s, RecheckNext(false)), AnnounceLeft), allowed);
        LeftsCons(refs[0], rest);
        assert s.pending + ([Left(refs[0])] + Lefts(rest)) == (s.pending + [Left(refs[0])]) + Lefts(rest);
        assert (set ref <- [refs[0]] + rest) == {refs[0]} + (set ref <- rest);
      }
    }
  }

  /** Denied are exactly the listed refs that are not allowed. */
  lemma {:induction false} DeniedAreNotAllowed(refs: seq<Ref>, allowed: map<Ref, bool>)
    ensures forall ref :: ref in Denied(refs, allowed) <==> ref in refs && !(ref in allowed && allowed[ref])
  {
    if refs != [] {
      var init, last := refs[..|refs| - 1], refs[|refs| - 1];
      assert refs == init + [last];
      DeniedAreNotAllowed(init, allowed);
    }
  }

  function Barred(refs: set<Ref>, allowed: map<Ref, bool>): set<Ref> {
    set ref <- refs | !(ref in allowed && allowed[ref])
  }

  lemma BarredAreDenied(refs: seq<Ref>, allowed: map<Ref, bool>)
    ensures (set ref <- Denied(refs, allowed)) == Barred((set ref <- refs), allowed)
  {
    hide Denied;
    DeniedAreNotAllowed(refs, allowed);
    assert forall ref :: ref in refs <==> ref in (set r <- refs);
  }

  /** A recheck that is asked for takes place: with no other job waiting, the handler, the worker and
      the job together leave the groups the consumer knows of that it is not allowed in, keep all
      others, and tell the consumer of each that was left. */
  lemma RecheckReaches(s: State, order: seq<Ref>, allowed: map<Ref, bool>)
    requires s.worker == Resting && s.jobs == [] && Enabled(s, HandleEvent(order)) && s.pending[0] == RecheckAsked
    ensures var asked := Next(s, HandleEvent(order));
            && asked.pending == s.pending[1..] && asked.group == s.group && asked.channelSubs == s.channelSubs
            && (s.channelSubs == {} ==> asked.jobs == [])
            && (s.channelSubs != {} ==>
                  && Enabled(asked, TakeJob(true)) && Next(asked, TakeJob(true)).worker.Rechecking?
                  && var done := RanRecheck(Next(asked, TakeJob(true)), allowed);
                     && done.group == s.group - Barred(s.channelSubs, allowed)
                     && done.channelSubs == s.channelSubs && done.worker == Resting && done.jobs == []
                     && s.pending[1..] <= done.pending
                     && forall e: Event :: e in done.pending[|s.pending| - 1..] <==>
                          e.Left? && e.ref in Barred(s.channelSubs, allowed))
  {
    hide Denied;
    if s.channelSubs != {} {
      var taken := Next(Next(s, HandleEvent(order)), TakeJob(true));
      RecheckLeavesDenied(taken, allowed);
      BarredAreDenied(order, allowed);
      var denied := Denied(order, allowed);
      assert (s.pending[1..] + Lefts(denied))[|s.pending| - 1..] == Lefts(denied);
      assert forall ref :: ref in denied <==> ref in (set r <- denied);
      forall e: Event ensures e in Lefts(denied) <==> e.Left? && e.ref in Barred(s.channelSubs, allowed) {
        if e.Left? && e.ref in denied {
          var k :| 0 <= k < |denied| && denied[k] == e.ref;
          assert Lefts(denied)[k] == e;
        }
      }
    }
  }

  /** One consumer with its groups, what is on its way to it, and its queue of jobs. */
  class Session {
    var group: set<Ref>
    var channelSubs: set<Ref>
    var pending: seq<Event>
    var jobs: seq<Job>
    var leaving: seq<Ref>

    function View(): State
      reads this
    {
      State(group, channelSubs, pending, jobs, Resting, leaving)
    }

    /** Connecting subscribes to the user's own organisation, if there is one and it is allowed,
        without asking a worker. */
    constructor (organisation: set<Ref>)
      ensures Connected(View()) && channelSubs == organisation
    {
      group, channelSubs, pending, jobs, leaving := organisation, organisation, [], [], [];
    }

    method Subscribe(ref: Ref, known: bool)
      modifies this
      ensures View() == Next(old(View()), ClientSubscribe(ref, known))
      ensures jobs == old(jobs) + (if known then [SubscribeJob(ref)] else [])
      ensures group == old(group) && channelSubs == old(channelSubs) && pending == old(pending)
    {
      if !known {
        return;
      }
      jobs := jobs + [SubscribeJob(ref)];
    }

    method StartLeave(ref: Ref)
      modifies this
      ensures View() == Next(old(View()), ClientLeave(ref))
      ensures group == old(group) - {ref} && leaving == old(leaving) + [ref] && channelSubs == old(channelSubs)
    {
      group := group - {ref};
      leaving := leaving + [ref];
    }

    method FinishLeave(i: nat)
      requires i < |leaving|
      modifies this
      ensures View() == Next(old(View()), Step.FinishLeave(i))
      ensures channelSubs == old(channelSubs) - {old(leaving)[i]} && group == old(group)
      ensures multiset(leaving) == multiset(old(leaving)) - multiset{old(leaving)[i]}
    {
      TakeOut(leaving, i);
      channelSubs := channelSubs - {leaving[i]};
      leaving := leaving[..i] + leaving[i + 1..];
    }

    method Dispatch(order: seq<Ref>)
      requires Enabled(View(), HandleEvent(order))
      modifies this
      ensures View() == Next(old(View()), HandleEvent(order))
      ensures pending == old(pending)[1..] && group == old(group) && leaving == old(leaving)
      ensures match old(pending)[0]
              case Subscribed(ref) => channelSubs == old(channelSubs) + {ref} && jobs == old(jobs)
              case Left(ref) => channelSubs == old(channelSubs) - {ref} && jobs == old(jobs)
              case RecheckAsked =>
                && channelSubs == old(channelSubs) == (set ref <- order)
                && jobs == old(jobs) + (if channelSubs == {} then [] else [RecheckJob(order)])
              case Forwarded => channelSubs == old(channelSubs) && jobs == old(jobs)
    {
      var event := pending[0];
      pending := pending[1..];
      match event
      case Subscribed(ref) => channelSubs := channelSubs + {ref};
      case Left(ref) => channelSubs := channelSubs - {ref};
      case RecheckAsked =>
        if channelSubs != {} {
          jobs := jobs + [RecheckJob(order)];
        }
      case Forwarded =>
    }

    /** The whole of a subscribe job: `stream` messages follow the announcement. */
    method RunSubscribe(allowed: bool, fails: bool, stream: nat)
      requires jobs != [] && jobs[0].SubscribeJob?
      modifies this
      ensures var taken := Next(old(View()), TakeJob(allowed));
              if !allowed then View() == taken
              else if fails then View() == Next(taken, CrashJob)
              else View() == var announced := Next(taken, Announce);
                             announced.(pending := announced.pending + seq(stream, _ => Forwarded))
      ensures jobs == old(jobs)[1..] && channelSubs == old(channelSubs) && leaving == old(leaving)
      ensures group == old(group) + (if allowed then {old(jobs)[0].ref} else {})
      ensures pending == old(pending) + if !allowed then [Forwarded] else if fails then []
                                        else [Subscribed(old(jobs)[0].ref)] + seq(stream, _ => Forwarded)
    {
      var ref := jobs[0].ref;
      jobs := jobs[1..];
      if !allowed {
        pending := pending + [Forwarded];
        return;
      }
      group := group + {ref};
      if fails {
        return;
      }
      pending := pending + [Subscribed(ref)];
      pending := pending + seq(stream, _ => Forwarded);
    }

    /** The whole of a recheck job. */
    method RunRecheck(allowed: map<Ref, bool>)
      requires jobs != [] && jobs[0].RecheckJob?
      modifies this
      ensures View() == RanRecheck(Next(old(View()), TakeJob(true)), allowed)
      ensures var denied := Denied(old(jobs)[0].refs, allowed);
              group == old(group) - (set ref <- denied) && pending == old(pending) + Lefts(denied)
      ensures group == old(group) - (set ref <- old(jobs)[0].refs | !(ref in allowed && allowed[ref]))
      ensures jobs == old(jobs)[1..] && channelSubs == old(channelSubs) && leaving == old(leaving)
    {
      ghost var taken := Next(View(), TakeJob(true));
      var refs := jobs[0].refs;
      jobs := jobs[1..];
      for i := 0 to |refs|
        invariant jobs == taken.jobs && channelSubs == taken.channelSubs && leaving == taken.leaving
        invariant group == taken.group - (set ref <- Denied(refs[..i], allowed))
        invariant pending == taken.pending + Lefts(Denied(refs[..i], allowed))
      {
        assert refs[..i + 1][..i] == refs[..i];
        if !(refs[i] in allowed && allowed[refs[i]]) {
          group := group - {refs[i]};
          pending := pending + [Left(refs[i])];
        }
      }
      assert refs[..|refs|] == refs;
      RecheckLeavesDenied(taken, allowed);
      BarredAreDenied(refs, allowed);
      assert (set ref <- refs | !(ref in allowed && allowed[ref])) == Barred((set ref <- refs), allowed);
    }

    /** Leaves the groups still known of. */
    method Disconnect()
      modifies this
      ensures View() == Disconnected(old(View()))
      ensures group == old(group) - old(channelSubs) && channelSubs == old(channelSubs)
    {
      group := group - channelSubs;
    }
  }
}
