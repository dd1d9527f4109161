/** The meeting, its agenda items and their polls as one machine (voteit/meeting/statemachines.py,
    voteit/agenda/statemachines.py, voteit/poll/statemachines.py). */
module Machines {
  import opened Collections
  import Poll

  // ------------------------------------------------------------- data model

  datatype MeetingState = Upcoming | Ongoing | Closed | Archiving | Archived | Deleting

  datatype ItemState = PrivateItem | UpcomingItem | OngoingItem | ClosedItem | ArchivedItem

  /** A poll keeps the agenda item it was created for, if any. */
  datatype PollRow = PollRow(state: Poll.PollState, item: Option<int>)

  datatype World = World(
    meeting: MeetingState,
    preDeleteState: Option<MeetingState>,
    items: map<int, ItemState>,
    polls: map<int, PollRow>)

  datatype MeetingEvent =
    | MakeUpcoming | MakeOngoing | Close | RequestArchiving | AbortArchiving | RequestDelete | AbortDelete

  datatype ItemEvent = MakeItemUpcoming | UnpublishItem | MakeItemOngoing | CloseItem

  /** `resolved` is where the automatic transitions take a closing poll. */
  datatype PollEvent =
    | MakePollUpcoming | MakePollOngoing | ClosePoll(resolved: Poll.PollState)
    | PublishResult | WithholdResult | CancelPoll | UnpublishPoll

  datatype Step =
    | OfMeeting(event: MeetingEvent)
    | OfItem(item: int, itemEvent: ItemEvent)
    | OfPoll(poll: int, pollEvent: PollEvent)
    | ArchiveMeeting
    | AddItem(item: int)
    | RemoveItem(item: int)
    | AddPoll(poll: int, on: Option<int>)
    | RemovePoll(poll: int)

  // --------------------------------------------------------- the three machines

  function MeetingTransition(w: World, e: MeetingEvent): Option<MeetingState> {
    match (e, w.meeting)
    case (MakeUpcoming, Ongoing) => Some(Upcoming)
    case (MakeOngoing, Upcoming) => Some(Ongoing)
    case (MakeOngoing, Closed) => Some(Ongoing)
    case (Close, Ongoing) => if AnyOngoing(w.polls) then None else Some(Closed)
    case (RequestArchiving, Closed) => Some(Archiving)
    case (AbortArchiving, Archiving) => Some(Closed)
    case (RequestDelete, Upcoming) => Some(Deleting)
    case (RequestDelete, Ongoing) => Some(Deleting)
    case (RequestDelete, Closed) => Some(Deleting)
    case (RequestDelete, Archiving) => Some(Deleting)
    case (RequestDelete, Archived) => Some(Deleting)
    case (AbortDelete, Deleting) =>
      if w.preDeleteState.Some? && w.preDeleteState.value != Deleting then w.preDeleteState else None
    case _ => None
  }

  predicate AnyOngoing(polls: map<int, PollRow>) {
    exists p <- polls.Keys :: polls[p].state == Poll.Ongoing
  }

  predicate AnyOngoingOn(polls: map<int, PollRow>, item: int) {
    exists p <- polls.Keys :: polls[p].item == Some(item) && polls[p].state == Poll.Ongoing
  }

  function ItemTransition(w: World, item: int, e: ItemEvent): Option<ItemState>
    requires item in w.items
  {
    var quiet := !AnyOngoingOn(w.polls, item);
    match (e, w.items[item])
    case (MakeItemUpcoming, PrivateItem) => Some(UpcomingItem)
    case (MakeItemUpcoming, ClosedItem) => Some(UpcomingItem)
    case (MakeItemUpcoming, OngoingItem) => if quiet then Some(UpcomingItem) else None
    case (UnpublishItem, UpcomingItem) => Some(PrivateItem)
    case (UnpublishItem, ClosedItem) => Some(PrivateItem)
    case (UnpublishItem, OngoingItem) => if quiet then Some(PrivateItem) else None
    case (MakeItemOngoing, PrivateItem) => if w.meeting == Ongoing then Some(OngoingItem) else None
    case (MakeItemOngoing, UpcomingItem) => if w.meeting == Ongoing then Some(OngoingItem) else None
    case (MakeItemOngoing, ClosedItem) => if w.meeting == Ongoing then Some(OngoingItem) else None
    case (CloseItem, PrivateItem) => if quiet && w.meeting != Upcoming then Some(ClosedItem) else None
    case (CloseItem, UpcomingItem) => if quiet && w.meeting != Upcoming then Some(ClosedItem) else None
    case (CloseItem, OngoingItem) => if quiet && w.meeting != Upcoming then Some(ClosedItem) else None
    case _ => None
  }

  /** A poll may start when its agenda item and the meeting are ongoing; without an agenda item
      nothing is asked. */
  predicate MayStart(w: World, item: Option<int>) {
    item.None? || (item.value in w.items && w.items[item.value] == OngoingItem && w.meeting == Ongoing)
  }

  predicate Resolves(s: Poll.PollState) {
    s == Poll.Withheld || s == Poll.Finished || s == Poll.NoResult || s == Poll.Failed
  }

  function PollTransition(w: World, p: PollRow, e: PollEvent): Option<Poll.PollState> {
    match (e, p.state)
    case (MakePollUpcoming, Private) => Some(Poll.Upcoming)
    case (MakePollOngoing, Private) => if MayStart(w, p.item) then Some(Poll.Ongoing) else None
    case (MakePollOngoing, Upcoming) => if MayStart(w, p.item) then Some(Poll.Ongoing) else None
    case (ClosePoll(resolved), Ongoing) => if Resolves(resolved) then Some(resolved) else None
    case (ClosePoll(resolved), Failed) => if Resolves(resolved) then Some(resolved) else None
    case (ClosePoll(resolved), Canceled) => if Resolves(resolved) then Some(resolved) else None
    case (PublishResult, Withheld) => Some(Poll.Finished)
    case (WithholdResult, Finished) => Some(Poll.Withheld)
    case (CancelPoll, Ongoing) => Some(Poll.Canceled)
    case (UnpublishPoll, Upcoming) => Some(Poll.Private)
    case _ => None
  }

  /** One step; a refused one changes nothing. `allowed` stands for every permission and for the
      checks of settings, method and register policy. */
  function Next(w: World, s: Step, allowed: bool): World {
    match s
    case OfMeeting(e) =>
      var to := MeetingTransition(w, e);
      if !allowed || to.None? then w
      else if e == RequestDelete then w.(meeting := Deleting, preDeleteState := Some(w.meeting))
      else w.(meeting := to.value)
    case OfItem(item, e) =>
      if allowed && item in w.items && ItemTransition(w, item, e).Some?
      then w.(items := w.items[item := ItemTransition(w, item, e).value]) else w
    case OfPoll(p, e) =>
      if allowed && p in w.polls && PollTransition(w, w.polls[p], e).Some?
      then w.(polls := w.polls[p := w.polls[p].(state := PollTransition(w, w.polls[p], e).value)]) else w
    case ArchiveMeeting =>
      if w.meeting == Archiving
      then w.(meeting := Archived, items := map item | item in w.items :: ArchivedItem) else w
    case AddItem(item) => if item in w.items then w else w.(items := w.items[item := PrivateItem])
    case RemoveItem(item) =>
      w.(items := w.items - {item},
         polls := map p | p in w.polls && w.polls[p].item != Some(item) :: w.polls[p])
    case AddPoll(p, on) =>
      if p in w.polls || (on.Some? && on.value !in w.items) then w
      else w.(polls := w.polls[p := PollRow(Poll.Private, on)])
    case RemovePoll(p) => w.(polls := w.polls - {p})
  }

  /** What it takes for an event to bring the meeting into a state. */
  predicate MeetingLeads(w: World, e: MeetingEvent, to: MeetingState) {
    match e
    case MakeUpcoming => to == Upcoming && w.meeting == Ongoing
    case MakeOngoing => to == Ongoing && (w.meeting == Upcoming || w.meeting == Closed)
    case Close =>
      to == Closed && w.meeting == Ongoing && forall p <- w.polls.Keys :: w.polls[p].state != Poll.Ongoing
    case RequestArchiving => to == Archiving && w.meeting == Closed
    case AbortArchiving => to == Closed && w.meeting == Archiving
    case RequestDelete => to == Deleting && w.meeting != Deleting
    case AbortDelete => to != Deleting && w.meeting == Deleting && w.preDeleteState == Some(to)
  }

  /** An event of the meeting leads there exactly when it is allowed and that is met, and changes
      nothing but the state; the state before a deletion is remembered. */
  lemma MeetingMoves(w: World, e: MeetingEvent, allowed: bool, to: MeetingState)
    ensures var v := Next(w, OfMeeting(e), allowed);
            && v.items == w.items && v.polls == w.polls
            && (allowed && MeetingLeads(w, e, to) ==> v.meeting == to)
            && (v.meeting != w.meeting ==> allowed && MeetingLeads(w, e, v.meeting))
            && v.preDeleteState == if allowed && e == RequestDelete && w.meeting != Deleting then Some(w.meeting)
                                   else w.preDeleteState
  {
  }

  /** What it takes for an event to bring an agenda item into a state: it stops being ongoing only
      without ongoing polls on it, starts only in an ongoing meeting, and is not closed before the
      meeting. */
  predicate ItemLeads(w: World, item: int, e: ItemEvent, to: ItemState)
    requires item in w.items
  {
    var quiet := forall p <- w.polls.Keys :: w.polls[p].item == Some(item) ==> w.polls[p].state != Poll.Ongoing;
    var from := w.items[item];
    && from != to && from != ArchivedItem
    && match e
       case MakeItemUpcoming => to == UpcomingItem && (from == OngoingItem ==> quiet)
       case UnpublishItem => to == PrivateItem && (from == OngoingItem ==> quiet)
       case MakeItemOngoing => to == OngoingItem && w.meeting == Ongoing
       case CloseItem => to == ClosedItem && quiet && w.meeting != Upcoming
  }

  lemma ItemMoves(w: World, item: int, e: ItemEvent, allowed: bool, to: ItemState)
    requires item in w.items
    ensures var v := Next(w, OfItem(item, e), allowed);
            && item in v.items && v == w.(items := w.items[item := v.items[item]])
            && (allowed && ItemLeads(w, item, e, to) ==> v.items[item] == to)
            && (v.items[item] != w.items[item] ==> allowed && ItemLeads(w, item, e, v.items[item]))
  {
    assert w.items == w.items[item := w.items[item]];
  }

  /** What the other steps do: archiving takes the meeting and all of its agenda with it, agenda items
      and polls begin private, and an agenda item that is removed takes exactly its polls along. */
  lemma RowsComeAndGo(w: World, s: Step, allowed: bool)
    ensures var v := Next(w, s, allowed);
            match s
            case ArchiveMeeting =>
              if w.meeting == Archiving then
                v.meeting == Archived && v.items.Keys == w.items.Keys && v.items.Values <= {ArchivedItem}
                && v.polls == w.polls
              else v == w
            case AddItem(item) =>
              item in v.items && v.items - {item} == w.items - {item}
              && (item !in w.items ==> v.items[item] == PrivateItem) && v.polls == w.polls
            case AddPoll(p, on) =>
              v.polls - {p} == w.polls - {p} && v.items == w.items
              && (p in w.polls ==> p in v.polls && v.polls[p] == w.polls[p])
              && (p !in w.polls && p in v.polls ==> v.polls[p] == PollRow(Poll.Private, on))
              && (p in v.polls <==> p in w.polls || on.None? || on.value in w.items)
            case RemoveItem(item) =>
              v.items == w.items - {item}
              && forall p :: p in w.polls ==>
                   if w.polls[p].item == Some(item) then p !in v.polls else p in v.polls && v.polls[p] == w.polls[p]
            case RemovePoll(p) => v.polls == w.polls - {p} && v.items == w.items
            case _ => v.items.Keys == w.items.Keys && v.polls.Keys == w.polls.Keys
  {
  }

  // ------------------------------------------------------------ the invariant

  /** Whether a meeting in this state may hold an ongoing poll of an agenda item. A meeting about to
      be deleted is as it was, for it may come back. */
  predicate Hosts(meeting: MeetingState, preDeleteState: Option<MeetingState>) {
    || meeting == Upcoming || meeting == Ongoing
    || (meeting == Deleting && (preDeleteState == Some(Upcoming) || preDeleteState == Some(Ongoing)))
  }

  ghost predicate Inv(w: World) {
    && (w.meeting == Deleting ==> w.preDeleteState.Some? && w.preDeleteState.value != Deleting)
    && forall p :: p in w.polls && w.polls[p].state == Poll.Ongoing && w.polls[p].item.Some? ==>
         && w.polls[p].item.value in w.items
         && w.items[w.polls[p].item.value] == OngoingItem
         && Hosts(w.meeting, w.preDeleteState)
  }

  lemma StepKeeps(w: World, s: Step, allowed: bool)
    requires Inv(w)
    ensures Inv(Next(w, s, allowed))
  {
    var v := Next(w, s, allowed);
    forall p | p in v.polls && v.polls[p].state == Poll.Ongoing && v.polls[p].item.Some?
      ensures v.polls[p].item.value in v.items && v.items[v.polls[p].item.value] == OngoingItem
      ensures Hosts(v.meeting, v.preDeleteState)
    {
      if s.OfPoll? && s.poll == p && w.polls[p].state != Poll.Ongoing {
      } else {
        assert p in w.polls && w.polls[p] == v.polls[p];
      }
    }
  }

  predicate IsOngoing(w: World, item: int) {
    item in w.items && w.items[item] == OngoingItem
  }

  /** At the moment a meeting closes no poll of it is ongoing; whenever an item becomes ongoing its
      meeting is, and whenever it stops being ongoing no poll of it is. */
  lemma ClosingIsQuiet(w: World, s: Step, allowed: bool, item: int)
    requires Inv(w)
    ensures var v := Next(w, s, allowed);
            && (v.meeting == Closed && w.meeting == Ongoing ==> !AnyOngoing(v.polls))
            && (IsOngoing(v, item) && !IsOngoing(w, item) ==> v.meeting == Ongoing)
            && (IsOngoing(w, item) && item in v.items && !IsOngoing(v, item) ==> !AnyOngoingOn(v.polls, item))
  {
    if s == ArchiveMeeting && w.meeting == Archiving {
      assert forall p <- w.polls.Keys :: w.polls[p].item == Some(item) ==> w.polls[p].state != Poll.Ongoing;
    }
  }

  ghost function Run(w: World, steps: seq<(Step, bool)>): World {
    if steps == [] then w else
      var last := steps[|steps| - 1];
      Next(Run(w, steps[..|steps| - 1]), last.0, last.1)
  }

  predicate Created(w: World) {
    w.meeting == Upcoming && w.items == map[] && w.polls == map[]
  }

  lemma {:induction false} RunKeeps(w: World, steps: seq<(Step, bool)>)
    requires Inv(w)
    ensures Inv(Run(w, steps))
  {
    if steps != [] {
      var last := steps[|steps| - 1];
      RunKeeps(w, steps[..|steps| - 1]);
      StepKeeps(Run(w, steps[..|steps| - 1]), last.0, last.1);
    }
  }

  /** Over every run of a meeting from its creation: an ongoing poll of an agenda item has that item
      ongoing, and the meeting is upcoming or ongoing, or was before its deletion was requested.
      So no closed, archiving or archived meeting has one. */
  lemma {:induction false} OngoingPollsAreHosted(w: World, steps: seq<(Step, bool)>, p: int)
    requires Created(w)
    requires var v := Run(w, steps); p in v.polls && v.polls[p].state == Poll.Ongoing && v.polls[p].item.Some?
    ensures var v := Run(w, steps);
            && v.polls[p].item.value in v.items
            && v.items[v.polls[p].item.value] == OngoingItem
            && Hosts(v.meeting, v.preDeleteState)
            && v.meeting != Closed && v.meeting != Archiving && v.meeting != Archived
  {
    RunKeeps(w, steps);
  }

  /** Aborting a deletion brings a meeting back to where it was, whatever happened to its agenda and
      its polls in between. */
  lemma {:induction false} AbortBringsBack(w: World, steps: seq<(Step, bool)>)
    requires Inv(w) && w.meeting != Deleting
    requires forall k :: 0 <= k < |steps| ==> steps[k].0 != OfMeeting(AbortDelete)
    ensures var begun := Next(w, OfMeeting(RequestDelete), true);
            var waiting := Run(begun, steps);
            && waiting.meeting == Deleting
            && waiting.preDeleteState == Some(w.meeting)
            && Next(waiting, OfMeeting(AbortDelete), true) == waiting.(meeting := w.meeting)
  {
    if steps != [] {
      AbortBringsBack(w, steps[..|steps| - 1]);
    }
  }

  /** No poll is ongoing, with or without an agenda item, unless the meeting may hold it. */
  ghost predicate AllHosted(w: World) {
    forall p :: p in w.polls && w.polls[p].state == Poll.Ongoing ==> Hosts(w.meeting, w.preDeleteState)
  }

  /** Starting a poll without an agenda item where no poll may be ongoing. */
  predicate StartsStray(w: World, s: Step, allowed: bool) {
    && allowed && s.OfPoll? && s.pollEvent == MakePollOngoing
    && s.poll in w.polls && w.polls[s.poll].item.None?
    && (w.polls[s.poll].state == Poll.Private || w.polls[s.poll].state == Poll.Upcoming)
    && !Hosts(w.meeting, w.preDeleteState)
  }

  /** That is the one step that breaks it: nothing is asked of a poll without an agenda item. */
  lemma StrayExact(w: World, s: Step, allowed: bool)
    requires Inv(w) && AllHosted(w)
    ensures AllHosted(Next(w, s, allowed)) <==> !StartsStray(w, s, allowed)
  {
    var v := Next(w, s, allowed);
    if StartsStray(w, s, allowed) {
      assert s.poll in v.polls && v.polls[s.poll].state == Poll.Ongoing;
    } else {
      forall p | p in v.polls && v.polls[p].state == Poll.Ongoing ensures Hosts(v.meeting, v.preDeleteState) {
        if s.OfPoll? && s.poll == p && w.polls[p].state != Poll.Ongoing {
        } else {
          assert p in w.polls && w.polls[p].state == Poll.Ongoing;
          assert p in w.polls.Keys && w.polls[p].state == Poll.Ongoing;
        }
      }
    }
  }

  /** Such a poll comes from direct writes only: every request that creates a poll names its agenda
      item. Over every run of those no poll at all is ongoing unless the meeting may hold it. */
  lemma {:induction false} RunIsHosted(w: World, steps: seq<(Step, bool)>)
    requires Created(w)
    requires forall k :: 0 <= k < |steps| && steps[k].0.AddPoll? ==> steps[k].0.on.Some?
    ensures var v := Run(w, steps);
            AllHosted(v) && forall p :: p in v.polls ==> v.polls[p].item.Some?
  {
    if steps != [] {
      var init, last := steps[..|steps| - 1], steps[|steps| - 1];
      RunIsHosted(w, init);
      RunKeeps(w, init);
      StrayExact(Run(w, init), last.0, last.1);
    }
  }

  /** An input: a closed meeting with a poll of no agenda item. */
  lemma StrayPollInClosedMeeting(w: World, p: int)
    requires w.meeting == Closed && p in w.polls && w.polls[p] == PollRow(Poll.Private, None)
    ensures var v := Next(w, OfPoll(p, MakePollOngoing), true);
            v.meeting == Closed && AnyOngoing(v.polls)
  {
    var v := Next(w, OfPoll(p, MakePollOngoing), true);
    assert p in v.polls.Keys && v.polls[p].state == Poll.Ongoing;
  }

  // ------------------------------------------------- the polls and their own machine

  /** The event of the poll's own machine; `register` is what the register policy applies. */
  function EventOf(e: PollEvent, register: Option<map<int, int>>): Poll.Event {
    match e
    case MakePollUpcoming => Poll.MakeUpcoming
    case MakePollOngoing => Poll.MakeOngoing(register)
    case ClosePoll(_) => Poll.Close
    case PublishResult => Poll.PublishResult
    case WithholdResult => Poll.WithholdResult
    case CancelPoll => Poll.Cancel
    case UnpublishPoll => Poll.Unpublish
  }

  /** The joint machine moves a poll as its own machine does, whenever the agenda item and the
      meeting let it start; and wherever closing takes the poll, it is one of the states the
      joint machine allows for. */
  lemma PollsMoveAlike(w: World, p: PollRow, v: Poll.Value, e: PollEvent, register: Option<map<int, int>>,
                       method_: Poll.Method)
    requires Poll.Inv(v) && v.state == p.state
    requires e.ClosePoll? && Poll.Possible(v, Poll.Close) ==> e.resolved == Poll.Closing(v, method_).state
    ensures PollTransition(w, p, e).Some? <==>
            Poll.Possible(v, EventOf(e, register)) && (e == MakePollOngoing ==> MayStart(w, p.item))
    ensures PollTransition(w, p, e).Some? ==>
            PollTransition(w, p, e).value == Poll.After(v, EventOf(e, register), true, method_).state
  {
  }

  // ------------------------------------------------------------ the meeting itself

  class Meeting {
    var state: MeetingState
    var preDeleteState: Option<MeetingState>
    var items: map<int, ItemState>
    var polls: map<int, PollRow>

    function View(): World
      reads this
    {
      World(state, preDeleteState, items, polls)
    }

    constructor ()
      ensures Created(View()) && Inv(View())
    {
      state, preDeleteState, items, polls := Upcoming, None, map[], map[];
    }

    method Send(e: MeetingEvent, allowed: bool)
      requires Inv(View())
      modifies this
      ensures Inv(View()) && View() == Next(old(View()), OfMeeting(e), allowed)
    {
      StepKeeps(View(), OfMeeting(e), allowed);
      var source := state;
      var target := MeetingTransition(View(), e);
      if !allowed || target.None? {
        return;
      }
      if e == RequestDelete {
        preDeleteState := Some(source);
      }
      state := target.value;
    }

    /** Not an event of the machine: the state is assigned directly, and so is that of every
        agenda item. */
    method Archive()
      requires Inv(View()) && state == Archiving
      modifies this
      ensures Inv(View()) && View() == Next(old(View()), ArchiveMeeting, true)
      ensures state == Archived && items.Keys == old(items).Keys
      ensures forall item :: item in items ==> items[item] == ArchivedItem
    {
      StepKeeps(View(), ArchiveMeeting, true);
      state := Archived;
      var rest := items.Keys;
      while rest != {}
        invariant rest <= old(items).Keys == items.Keys
        invariant forall item :: item in items ==>
          items[item] == if item in rest then old(items)[item] else ArchivedItem
        invariant state == Archived && preDeleteState == old(preDeleteState) && polls == old(polls)
        decreases rest
      {
        var item := AnyOf(rest);
        items := items[item := ArchivedItem];
        rest := rest - {item};
      }
      ghost var archived := map item | item in old(items) :: ArchivedItem;
      assert items.Keys == archived.Keys;
      assert forall item :: item in items ==> item !in rest && items[item] == archived[item];
      assert items == archived;
    }
  }
}
