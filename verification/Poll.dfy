/** The life of a poll and of the proposals it is about (voteit/poll/statemachines.py,
    voteit/poll/models.py, voteit/proposal/statemachines.py). */
module Poll {
  import opened Collections
  import opened Tally

  // --------------------------------------------------------------- proposals

  datatype ProposalState = Published | Retracted | Voting | Approved | Denied | Unhandled

  datatype ProposalEvent = Retract | LockForVote | Approve | Deny | MarkUnhandled | Publish

  /** Where an event leads, or None when the machine does not allow it. */
  function Fire(s: ProposalState, e: ProposalEvent): Option<ProposalState> {
    match (e, s)
    case (Retract, Published) => Some(Retracted)
    case (LockForVote, Published) => Some(Voting)
    case (LockForVote, Retracted) => Some(Voting)
    case (Approve, Published) => Some(Approved)
    case (Approve, Voting) => Some(Approved)
    case (Approve, Denied) => Some(Approved)
    case (Deny, Published) => Some(Denied)
    case (Deny, Voting) => Some(Denied)
    case (Deny, Approved) => Some(Denied)
    case (MarkUnhandled, Published) => Some(Unhandled)
    case (Publish, Retracted) => Some(Published)
    case (Publish, Voting) => Some(Published)
    case (Publish, Approved) => Some(Published)
    case (Publish, Denied) => Some(Published)
    case (Publish, Unhandled) => Some(Published)
    case _ => None
  }

  /** Every event leads to one state, and is allowed from these. */
  lemma ProposalMoves(s: ProposalState, e: ProposalEvent)
    ensures Fire(s, e).Some? <==>
            match s
            case Published => e != Publish
            case Retracted => e == LockForVote || e == Publish
            case Voting => e == Approve || e == Deny || e == Publish
            case Approved => e == Deny || e == Publish
            case Denied => e == Approve || e == Publish
            case Unhandled => e == Publish
    ensures Fire(s, e).Some? ==> Fire(s, e).value != s
    ensures Fire(s, e).Some? ==>
            match Fire(s, e).value
            case Published => e == Publish
            case Retracted => e == Retract
            case Voting => e == LockForVote
            case Approved => e == Approve
            case Denied => e == Deny
            case Unhandled => e == MarkUnhandled
  {
  }

  datatype Proposal = Proposal(pk: int, state: ProposalState)

  /** A refused transition is suppressed. */
  function Fired(p: Proposal, e: ProposalEvent): Proposal {
    match Fire(p.state, e)
    case Some(s) => p.(state := s)
    case None => p
  }

  // ------------------------------------------------------------------- polls

  datatype PollState =
    Private | Upcoming | Ongoing | Closed | Finished | Withheld | Canceled | Failed | NoResult

  /** What a poll method makes of a count; it may fail. */
  datatype Outcome = Outcome(approved: set<int>, denied: set<int>)

  datatype Result = Result(voteCount: int, approved: set<int>, denied: set<int>)

  type Method = Counter -> Option<Outcome>

  datatype Value = Value(
    state: PollState,
    register: Option<map<int, int>>,
    votes: seq<Vote>,
    ballotData: Option<Counter>,
    ballotChecksum: Option<Counter>,  // of the ballot data it was taken from
    abstains: int,
    resultData: Option<Result>,
    withheldResult: bool,
    proposals: seq<Proposal>)

  // ------------------------------------------------------- the machine, stated

  predicate HasValidVotes(votes: seq<Vote>) {
    exists v <- votes :: !v.abstain
  }

  predicate Populated(register: Option<map<int, int>>) {
    register.Some? && register.value != map[]
  }

  /** The votes that are counted. */
  function Counted(v: Value): seq<Vote> {
    if v.register.Some? then InRegister(v.votes, v.register.value) else v.votes
  }

  function EachFired(proposals: seq<Proposal>, fires: ProposalState -> bool, e: ProposalEvent): seq<Proposal> {
    seq(|proposals|, i requires 0 <= i < |proposals| =>
      if fires(proposals[i].state) then Fired(proposals[i], e) else proposals[i])
  }

  function Locked(proposals: seq<Proposal>): seq<Proposal> {
    EachFired(proposals, s => s == Published, LockForVote)
  }

  function Released(proposals: seq<Proposal>): seq<Proposal> {
    EachFired(proposals, s => s == Voting, Publish)
  }

  function Verdict(r: Result, pk: int): ProposalEvent {
    if pk in r.approved then Approve else if pk in r.denied then Deny else Publish
  }

  function Decided(proposals: seq<Proposal>, r: Result): seq<Proposal> {
    seq(|proposals|, i requires 0 <= i < |proposals| => Fired(proposals[i], Verdict(r, proposals[i].pk)))
  }

  datatype Event =
    | MakeUpcoming
    | MakeOngoing(register: Option<map<int, int>>)  // what the register policy applies
    | Close
    | PublishResult
    | WithholdResult
    | Cancel
    | Unpublish
    | CastVote(vote: Vote)
    | ChangeRegister(register: Option<map<int, int>>)
    | ChangeProposal(i: nat, event: ProposalEvent)

  /** What closing comes to, whatever was tried before: no result without anything to count,
      else the result of the method, shown or withheld, and failed if there is none. */
  ghost function Closing(v: Value, method_: Method): Value {
    var votes := Counted(v);
    var w := v.(votes := votes);
    if !Populated(v.register) || !HasValidVotes(votes) then w.(state := NoResult)
    else
      var counter := Count(votes, v.register.value);
      match method_(counter)
      case None => w.(state := Failed)
      case Some(o) =>
        var r := Result(Sum(counter), o.approved, o.denied);
        w.(state := if v.withheldResult then Withheld else Finished,
           ballotData := Some(counter), ballotChecksum := Some(counter),
           abstains := Abstained(votes, v.register.value), resultData := Some(r),
           proposals := if v.withheldResult then v.proposals else Decided(v.proposals, r))
  }

  /** What an attempt to calculate the result leaves: nothing new without a register or with ballots
      or a result already there, and ballots without a result when the method fails. */
  ghost function Calculated(v: Value, method_: Method): Value {
    if v.resultData.Some? || v.ballotData.Some? || v.register.None? then v
    else
      var counter := Count(v.votes, v.register.value);
      v.(ballotData := Some(counter), ballotChecksum := Some(counter),
         abstains := Abstained(v.votes, v.register.value),
         resultData := match method_(counter)
                       case None => None
                       case Some(o) => Some(Result(Sum(counter), o.approved, o.denied)))
  }

  /** On entering the closed state. */
  ghost function Attempted(v: Value, method_: Method): Value {
    var w := v.(votes := Counted(v));
    (if HasValidVotes(w.votes) then Calculated(w, method_) else w).(state := Closed)
  }

  /** On leaving it, by the first automatic transition whose conditions hold. */
  function Resolved(v: Value): Value {
    var shown := Populated(v.register) && HasValidVotes(v.votes) && v.resultData.Some?;
    if v.withheldResult && shown then v.(state := Withheld)
    else if !v.withheldResult && shown then v.(state := Finished, proposals := Decided(v.proposals, v.resultData.value))
    else if !HasValidVotes(v.votes) then v.(state := NoResult)
    else if !Populated(v.register) then v.(state := NoResult)
    else v.(state := Failed, ballotData := None, ballotChecksum := None, abstains := 0)
  }

  /** Saving a vote: only those in the register may vote, abstaining clears the ballot, and a
      voter's earlier vote is replaced. */
  function Saved(v: Value, vote: Vote): Value {
    if v.register.None? || vote.user !in v.register.value then v
    else
      var clean := if vote.abstain then vote.(ballot := None) else vote;
      var i := IndexOf(v.votes, vote.user);
      v.(votes := if i < |v.votes| then v.votes[i := clean] else v.votes + [clean])
  }

  function IndexOf(votes: seq<Vote>, user: int): (i: nat)
    ensures i <= |votes|
    ensures i < |votes| ==> votes[i].user == user
    ensures forall j :: 0 <= j < i ==> votes[j].user != user
  {
    if votes == [] then 0
    else if IndexOf(votes[..|votes| - 1], user) < |votes| - 1 then IndexOf(votes[..|votes| - 1], user)
    else if votes[|votes| - 1].user == user then |votes| - 1
    else |votes|
  }

  lemma IndexOfAfter(votes: seq<Vote>, clean: Vote, i: nat)
    requires OnePerVoter(votes) && i == IndexOf(votes, clean.user)
    ensures var w := if i < |votes| then votes[i := clean] else votes + [clean];
            OnePerVoter(w) && forall x: Vote :: x in w <==> x == clean || (x in votes && x.user != clean.user)
  {
    hide IndexOf;
    var w := if i < |votes| then votes[i := clean] else votes + [clean];
    assert w[i] == clean && forall j :: 0 <= j < |votes| && j != i ==> w[j] == votes[j];
    forall x: Vote | x in votes && x.user != clean.user ensures x in w {
      var j :| 0 <= j < |votes| && votes[j] == x;
      assert w[j] == x;
    }
  }

  /** A vote that is saved is the voter's vote from then on and the only one, without its ballot when
      it abstains; nobody else's vote changes, and one that is refused changes nothing. */
  lemma SavedExact(v: Value, vote: Vote)
    requires OnePerVoter(v.votes)
    ensures var w := Saved(v, vote);
            if v.register.Some? && vote.user in v.register.value then
              && Vote(vote.user, vote.abstain, if vote.abstain then None else vote.ballot) in w.votes
              && (forall x: Vote :: x.user != vote.user ==> (x in w.votes <==> x in v.votes))
              && OnePerVoter(w.votes) && w == v.(votes := w.votes)
            else w == v
  {
    if v.register.Some? && vote.user in v.register.value {
      var clean := if vote.abstain then vote.(ballot := None) else vote;
      IndexOfAfter(v.votes, clean, IndexOf(v.votes, vote.user));
    }
  }

  predicate Possible(v: Value, e: Event) {
    match e
    case MakeUpcoming => v.state == Private
    case MakeOngoing(_) => v.state == Private || v.state == Upcoming
    case Close => v.state == Ongoing || v.state == Failed || v.state == Canceled
    case PublishResult => v.state == Withheld && v.resultData.Some?
    case WithholdResult => v.state == Finished
    case Cancel => v.state == Ongoing
    case Unpublish => v.state == Upcoming
    case _ => true
  }

  /** One event; `allowed` says that its validators let it pass. */
  ghost function After(v: Value, e: Event, allowed: bool, method_: Method): Value {
    if !allowed || !Possible(v, e) then v
    else
      match e
      case MakeUpcoming => v.(state := Upcoming, proposals := Locked(v.proposals))
      case MakeOngoing(register) => v.(state := Ongoing, register := register, proposals := Locked(v.proposals))
      case Close => Closing(v, method_)
      case PublishResult =>
        v.(state := Finished, withheldResult := false, proposals := Decided(v.proposals, v.resultData.value))
      case WithholdResult => v.(state := Withheld, withheldResult := true)
      case Cancel => v.(state := Canceled, proposals := Released(v.proposals))
      case Unpublish => v.(state := Private)
      case CastVote(vote) => Saved(v, vote)
      case ChangeRegister(register) => v.(register := register)
      case ChangeProposal(i, event) =>
        if i < |v.proposals| then v.(proposals := v.proposals[i := Fired(v.proposals[i], event)]) else v
  }

  lemma CloseIsClosing(v: Value, allowed: bool, method_: Method)
    ensures After(v, Close, allowed, method_) == if allowed && Possible(v, Close) then Closing(v, method_) else v
  {
  }

  // ------------------------------------------------------------ the invariant

  predicate Counts(s: PollState) {
    s == Finished || s == Withheld
  }

  ghost predicate Inv(v: Value) {
    && v.state != Closed
    && v.ballotData.Some? == v.ballotChecksum.Some? == v.resultData.Some? == Counts(v.state)
    && v.ballotChecksum == v.ballotData
    && (Counts(v.state) ==> v.resultData.value.voteCount == Sum(v.ballotData.value))
    && (!Counts(v.state) ==> v.abstains == 0)
    && (v.state == Withheld ==> v.withheldResult)
    && (v.state == Finished ==> !v.withheldResult)
    && OnePerVoter(v.votes)
  }

  /** The attempt and the automatic transitions come to what closing is said to come to. */
  lemma ClosingResolves(v: Value, method_: Method)
    requires Inv(v) && Possible(v, Close)
    ensures Resolved(Attempted(v, method_)) == Closing(v, method_)
  {
    hide Count, Abstained, InRegister, Sum, Decided;
    if v.register == Some(map[]) {
      InRegisterIsExact(v.votes, map[]);
      assert !HasValidVotes(Counted(v));
    }
  }

  lemma StepKeeps(v: Value, e: Event, allowed: bool, method_: Method)
    requires Inv(v)
    ensures Inv(After(v, e, allowed, method_))
  {
    hide Count, Sum, Abstained, InRegister;
    if e == Close && v.register.Some? {
      InRegisterIsExact(v.votes, v.register.value);
    }
  }

  predicate Created(v: Value) {
    && v.state == Private && v.votes == [] && v.ballotData == None && v.ballotChecksum == None
    && v.abstains == 0 && v.resultData == None
  }

  /** Events with what the validators say and what the method would do at that moment. */
  datatype Move = Move(event: Event, allowed: bool, method_: Method)

  ghost function Run(v: Value, moves: seq<Move>): Value {
    if moves == [] then v else
      var m := moves[|moves| - 1];
      After(Run(v, moves[..|moves| - 1]), m.event, m.allowed, m.method_)
  }

  lemma {:induction false} RunKeeps(v: Value, moves: seq<Move>)
    requires Inv(v)
    ensures Inv(Run(v, moves))
  {
    if moves != [] {
      var m := moves[|moves| - 1];
      RunKeeps(v, moves[..|moves| - 1]);
      StepKeeps(Run(v, moves[..|moves| - 1]), m.event, m.allowed, m.method_);
    }
  }

  /** Over every run from its creation a poll never rests in the closed state, has its ballots,
      their checksum and its result exactly when it is finished or withheld, and is withheld
      rather than finished exactly as its flag says. */
  lemma PollLifecycle(v: Value, moves: seq<Move>)
    requires Created(v)
    ensures Inv(Run(v, moves))
  {
    RunKeeps(v, moves);
  }

  /** Once there, the ballots, the checksum, the abstentions and the result never change, and the
      poll stays finished or withheld. */
  lemma {:induction false} ResultIsFinal(v: Value, moves: seq<Move>)
    requires Inv(v) && Counts(v.state)
    ensures var w := Run(v, moves);
            && Counts(w.state)
            && w.ballotData == v.ballotData && w.ballotChecksum == v.ballotChecksum
            && w.abstains == v.abstains && w.resultData == v.resultData
  {
    hide Closing, Decided, Saved, Inv;
    if moves != [] {
      ResultIsFinal(v, moves[..|moves| - 1]);
      SavedKeepsRest(Run(v, moves[..|moves| - 1]), moves[|moves| - 1].event);
    }
  }

  lemma SavedKeepsRest(v: Value, e: Event)
    ensures e.CastVote? ==> Saved(v, e.vote) == v.(votes := Saved(v, e.vote).votes)
  {
  }

  lemma {:induction false} InRegisterTwice(votes: seq<Vote>, weights: map<int, int>)
    ensures InRegister(InRegister(votes, weights), weights) == InRegister(votes, weights)
  {
    if votes != [] {
      InRegisterTwice(votes[..|votes| - 1], weights);
      var kept := InRegister(votes[..|votes| - 1], weights);
      assert (kept + [votes[|votes| - 1]])[..|kept|] == kept;
    }
  }

  /** From where a poll can get into a state, and by which event. */
  predicate LedBy(s: PollState, e: Event, source: PollState) {
    match s
    case Private => e == Unpublish && source == Upcoming
    case Upcoming => e == MakeUpcoming && source == Private
    case Ongoing => e.MakeOngoing? && (source == Private || source == Upcoming)
    case Canceled => e == Cancel && source == Ongoing
    case Finished => (e == PublishResult && source == Withheld) || (e == Close && Closable(source))
    case Withheld => (e == WithholdResult && source == Finished) || (e == Close && Closable(source))
    case NoResult => e == Close && Closable(source)
    case Failed => e == Close && Closable(source)
    case Closed => false
  }

  predicate Closable(s: PollState) {
    s == Ongoing || s == Failed || s == Canceled
  }

  /** A poll gets nowhere else, and an event that leads somewhere leads there. */
  lemma EventsLead(v: Value, e: Event, allowed: bool, method_: Method)
    requires Inv(v)
    ensures var w := After(v, e, allowed, method_);
            && (w.state != v.state ==> allowed && LedBy(w.state, e, v.state))
            && (forall s: PollState :: allowed && e != Close && LedBy(s, e, v.state) ==> w.state == s)
            && (allowed && e == Close && (v.state == Ongoing || v.state == Canceled) ==> w.state != v.state)
            && (allowed && e.MakeOngoing? && w.state != v.state ==> w.register == e.register)
            && (!allowed ==> w == v)
  {
    hide InRegister, Count, Sum, Abstained, Decided, Saved;
    if e.CastVote? {
      SavedKeepsRest(v, e);
    }
  }

  /** What closing comes to, told by the votes and what the method does: nothing to count unless
      somebody in the register voted without abstaining; otherwise the method has its say, on
      exactly the votes of those in the register. */
  lemma ClosingOutcome(v: Value, method_: Method)
    requires Inv(v) && Possible(v, Close)
    ensures var w := After(v, Close, true, method_);
            && (forall x: Vote :: x in w.votes <==>
                  x in v.votes && (v.register.None? || x.user in v.register.value))
            && (w.state == NoResult <==>
                  !exists x <- v.votes :: !x.abstain && v.register.Some? && x.user in v.register.value)
            && (w.state == NoResult || w.state == Failed ==> w == v.(state := w.state, votes := w.votes))
            && (w.state != NoResult ==>
                  var c := Count(w.votes, v.register.value);
                  if method_(c).None? then w.state == Failed
                  else
                    && w.state == (if v.withheldResult then Withheld else Finished)
                    && w.ballotData == w.ballotChecksum == Some(c)
                    && w.abstains == Abstained(w.votes, v.register.value)
                    && w.resultData == Some(Result(Sum(c), method_(c).value.approved, method_(c).value.denied))
                    && w.register == v.register && w.withheldResult == v.withheldResult
                    && (v.withheldResult ==> w.proposals == v.proposals))
  {
    hide InRegister, Count, Sum, Abstained, Decided, Saved;
    if v.register.Some? {
      InRegisterIsExact(v.votes, v.register.value);
    }
  }

  /** A failed attempt leaves no trace: closing again gives what closing would have given then. */
  lemma RetryStartsAfresh(v: Value, first: Method, second: Method)
    requires Inv(v) && Possible(v, Close) && Closing(v, first).state == Failed
    ensures Possible(Closing(v, first), Close)
    ensures Closing(Closing(v, first), second) == Closing(v, second)
  {
    hide InRegister, Count, Sum, Abstained, Decided;
    if v.register.Some? {
      InRegisterTwice(v.votes, v.register.value);
    }
  }

  /** The result accounts for the weight of everyone who voted, and for registers without negative
      weights stays within their total. */
  lemma ResultAddsUp(v: Value, method_: Method)
    requires Inv(v) && Possible(v, Close) && Counts(Closing(v, method_).state)
    ensures var w := Closing(v, method_);
            && AllInRegister(w.votes, w.register.value)
            && w.resultData.value.voteCount + w.abstains == Cast(w.votes, w.register.value)
            && ((forall user :: user in w.register.value ==> w.register.value[user] >= 0) ==>
                  w.resultData.value.voteCount + w.abstains <= Sum(w.register.value))
  {
    hide InRegister, Count, Sum, Abstained, Decided;
    InRegisterIsExact(v.votes, v.register.value);
    var w := Closing(v, method_);
    NothingLost(w.votes, w.register.value);
    if forall user :: user in w.register.value ==> w.register.value[user] >= 0 {
      WithinTotal(w.votes, w.register.value);
    }
  }

  // ------------------------------------------------------------- its proposals

  predicate NoneVoting(proposals: seq<Proposal>) {
    forall i :: 0 <= i < |proposals| ==> proposals[i].state != Voting
  }

  /** Entering finished or canceled leaves no proposal of the poll waiting for the vote. */
  lemma NoneLeftVoting(v: Value, e: Event, allowed: bool, method_: Method)
    requires Inv(v)
    ensures var w := After(v, e, allowed, method_);
            w.state != v.state && (w.state == Finished || w.state == Canceled) ==> NoneVoting(w.proposals)
  {
    hide InRegister, Count, Sum, Abstained, Decided, Released, NoneVoting;
    NoneVotingReleased(v.proposals);
    if e == Close && v.register.Some? {
      match method_(Count(Counted(v), v.register.value))
      case Some(o) =>
        NoneVotingDecided(v.proposals, Result(Sum(Count(Counted(v), v.register.value)), o.approved, o.denied));
      case None =>
    } else if e == PublishResult && v.resultData.Some? {
      NoneVotingDecided(v.proposals, v.resultData.value);
    }
  }

  lemma NoneVotingReleased(proposals: seq<Proposal>)
    ensures NoneVoting(Released(proposals))
  {
    var fires := s => s == Voting;
    forall i | 0 <= i < |proposals| ensures Released(proposals)[i].state != Voting {
      assert fires(proposals[i].state) == (proposals[i].state == Voting);
    }
  }

  lemma NoneVotingDecided(proposals: seq<Proposal>, r: Result)
    ensures NoneVoting(Decided(proposals, r))
  {
  }

  /** What becomes of a proposal when the result is applied: approved ones end approved, denied
      ones denied, and the rest published, except that a retracted or unhandled proposal is
      neither approved nor denied. */
  lemma DecidedAsVoted(proposals: seq<Proposal>, r: Result, i: nat)
    requires i < |proposals|
    ensures AsVoted(proposals[i], Decided(proposals, r)[i], r)
  {
  }

  predicate AsVoted(p: Proposal, q: Proposal, r: Result) {
    && q.pk == p.pk
    && (q.state == Approved <==> p.pk in r.approved && p.state != Retracted && p.state != Unhandled)
    && (q.state == Denied <==>
          p.pk !in r.approved && p.pk in r.denied && p.state != Retracted && p.state != Unhandled)
    && (q.state == Published <==> p.pk !in r.approved && p.pk !in r.denied)
    && (q.state == p.state || q.state == Approved || q.state == Denied || q.state == Published)
  }

  /** However a poll comes to be finished, at once or after its result was withheld, every proposal
      ends as its result says. */
  lemma FinishedAsVoted(v: Value, e: Event, allowed: bool, method_: Method, i: nat)
    requires Inv(v) && i < |v.proposals|
    ensures var w := After(v, e, allowed, method_);
            w.state == Finished && v.state != Finished ==>
              |w.proposals| == |v.proposals| && AsVoted(v.proposals[i], w.proposals[i], w.resultData.value)
  {
    hide InRegister, Count, Sum, Abstained, Saved, AsVoted;
    StepKeeps(v, e, allowed, method_);
    if e.CastVote? {
      SavedKeepsRest(v, e);
    }
    var w := After(v, e, allowed, method_);
    if w.state == Finished && v.state != Finished {
      DecidedAsVoted(v.proposals, w.resultData.value, i);
    }
  }

  lemma StartLocks(proposals: seq<Proposal>, i: nat)
    requires i < |proposals|
    ensures Locked(proposals)[i] ==
            if proposals[i].state == Published then proposals[i].(state := Voting) else proposals[i]
    ensures Released(proposals)[i] ==
            if proposals[i].state == Voting then proposals[i].(state := Published) else proposals[i]
  {
    var published, voting := (s: ProposalState) => s == Published, (s: ProposalState) => s == Voting;
    assert published(proposals[i].state) <==> proposals[i].state == Published;
    assert voting(proposals[i].state) <==> proposals[i].state == Voting;
  }

  /** Starting a poll leaves none of its proposals open, and cancelling it puts every one back to
      where it was, unless one was locked for another poll already. */
  lemma CancelUndoesStart(v: Value, register: Option<map<int, int>>, method_: Method)
    requires v.state == Private || v.state == Upcoming
    ensures var started := After(v, MakeOngoing(register), true, method_);
            var canceled := After(started, Cancel, true, method_);
            && (forall p <- started.proposals :: p.state != Published)
            && (canceled.proposals == v.proposals <==> NoneVoting(v.proposals))
  {
    hide Locked, Released;
    var locked := Locked(v.proposals);
    forall i | 0 <= i < |v.proposals|
      ensures |locked| == |v.proposals| == |Released(locked)| && locked[i].state != Published
      ensures Released(locked)[i] == v.proposals[i] <==> v.proposals[i].state != Voting
    {
      SameNumber(v.proposals);
      SameNumber(locked);
      StartLocks(v.proposals, i);
      StartLocks(locked, i);
    }
    SameNumber(v.proposals);
    SameNumber(locked);
  }

  /** Announcing or starting a poll takes exactly its open proposals out of circulation, cancelling it
      publishes exactly those that wait for the vote, and only the events of a finished poll and of
      the proposals themselves touch them otherwise. */
  lemma ProposalsFollow(v: Value, e: Event, allowed: bool, method_: Method, i: nat)
    requires Inv(v) && i < |v.proposals|
    ensures var w := After(v, e, allowed, method_);
            && |w.proposals| == |v.proposals|
            && var p, q := v.proposals[i], w.proposals[i];
               && (w.state != v.state && (w.state == Upcoming || w.state == Ongoing) ==>
                     q == if p.state == Published then p.(state := Voting) else p)
               && (w.state != v.state && w.state == Canceled ==>
                     q == if p.state == Voting then p.(state := Published) else p)
               && (q != p ==>
                     || (e.ChangeProposal? && e.i == i && q == Fired(p, e.event))
                     || (w.state != v.state && w.state in {Upcoming, Ongoing, Canceled, Finished}))
  {
    hide InRegister, Count, Sum, Abstained, Saved, Decided, Locked, Released, Fired;
    StartLocks(v.proposals, i);
    SameNumber(v.proposals);
    if e.CastVote? {
      SavedKeepsRest(v, e);
    }
    DecidedIsSameNumber(v.proposals);
  }

  lemma DecidedIsSameNumber(proposals: seq<Proposal>)
    ensures forall r: Result :: |Decided(proposals, r)| == |proposals|
  {
  }

  lemma SameNumber(proposals: seq<Proposal>)
    ensures |Locked(proposals)| == |proposals| == |Released(proposals)|
  {
  }

  // ------------------------------------------------------------- the poll itself

  class VotePoll {
    var state: PollState
    var register: Option<map<int, int>>
    var votes: seq<Vote>
    var ballotData: Option<Counter>
    var ballotChecksum: Option<Counter>
    var abstains: int
    var resultData: Option<Result>
    var withheldResult: bool
    var proposals: seq<Proposal>

    function View(): Value
      reads this
    {
      Value(state, register, votes, ballotData, ballotChecksum, abstains, resultData, withheldResult, proposals)
    }

    constructor (withheldResult: bool, proposals: seq<Proposal>)
      ensures Created(View()) && Inv(View())
      ensures this.withheldResult == withheldResult && this.proposals == proposals
    {
      state, register, votes := Private, None, [];
      ballotData, ballotChecksum, abstains, resultData := None, None, 0, None;
      this.withheldResult, this.proposals := withheldResult, proposals;
    }

    method LockProposals()
      modifies this`proposals
      ensures proposals == Locked(old(proposals))
    {
      for i := 0 to |proposals|
        invariant |proposals| == |old(proposals)|
        invariant forall k :: 0 <= k < i ==> proposals[k] == Locked(old(proposals))[k]
        invariant forall k :: i <= k < |proposals| ==> proposals[k] == old(proposals)[k]
      {
        if proposals[i].state == Published {
          proposals := proposals[i := Fired(proposals[i], LockForVote)];
        }
      }
    }

    method ReleaseProposals()
      modifies this`proposals
      ensures proposals == Released(old(proposals))
    {
      for i := 0 to |proposals|
        invariant |proposals| == |old(proposals)|
        invariant forall k :: 0 <= k < i ==> proposals[k] == Released(old(proposals))[k]
        invariant forall k :: i <= k < |proposals| ==> proposals[k] == old(proposals)[k]
      {
        if proposals[i].state == Voting {
          proposals := proposals[i := Fired(proposals[i], Publish)];
        }
      }
    }

    method SetProposalsFromResult()
      requires resultData.Some?
      modifies this`proposals
      ensures proposals == Decided(old(proposals), resultData.value)
    {
      var r := resultData.value;
      for i := 0 to |proposals|
        invariant |proposals| == |old(proposals)|
        invariant forall k :: 0 <= k < i ==> proposals[k] == Decided(old(proposals), r)[k]
        invariant forall k :: i <= k < |proposals| ==> proposals[k] == old(proposals)[k]
      {
        var p := proposals[i];
        if p.pk in r.approved {
          p := Fired(p, Approve);
        } else if p.pk in r.denied {
          p := Fired(p, Deny);
        } else {
          p := Fired(p, Publish);
        }
        proposals := proposals[i := p];
      }
    }

    method CleanupRemovedVotes()
      requires register.Some?
      modifies this`votes
      ensures votes == InRegister(old(votes), register.value)
    {
      var kept: seq<Vote> := [];
      for i := 0 to |votes|
        invariant kept == InRegister(votes[..i], register.value)
        invariant votes == old(votes)
      {
        assert votes[..i + 1][..i] == votes[..i];
        if votes[i].user in register.value {
          kept := kept + [votes[i]];
        }
      }
      assert votes[..|votes|] == votes;
      votes := kept;
    }

    /** Raises when the ballots are final already or there is no register. */
    method FinalizeVoteData() returns (counter: Option<Counter>)
      modifies this`abstains, this`ballotData, this`ballotChecksum
      ensures counter.None? <==> old(ballotData).Some? || register.None?
      ensures counter.None? ==>
                abstains == old(abstains) && ballotData == old(ballotData) && ballotChecksum == old(ballotChecksum)
      ensures counter.Some? ==>
                && counter.value == Count(votes, register.value)
                && abstains == Abstained(votes, register.value)
                && ballotData == ballotChecksum == counter
    {
      if ballotData.Some? || register.None? {
        return None;
      }
      var c, a := CountVotes(votes, register.value);
      abstains, ballotData, ballotChecksum := a, Some(c), Some(c);
      return Some(c);
    }

    /** Leaves the ballots finalised when the method fails. */
    method CalculateResult(method_: Method)
      modifies this`abstains, this`ballotData, this`ballotChecksum, this`resultData
      ensures View() == Calculated(old(View()), method_)
    {
      if resultData.Some? {
        return;
      }
      var counter := FinalizeVoteData();
      if counter.None? {
        return;
      }
      var outcome := method_(counter.value);
      if outcome.None? {
        return;
      }
      var total := SumValues(counter.value);
      resultData := Some(Result(total, outcome.value.approved, outcome.value.denied));
    }

    method AnyValidVote() returns (found: bool)
      ensures found == HasValidVotes(votes)
    {
      for i := 0 to |votes|
        invariant forall k :: 0 <= k < i ==> votes[k].abstain
      {
        if !votes[i].abstain {
          return true;
        }
      }
      return false;
    }

    /** The votes of those no longer in the register go, and the result is attempted. */
    method EnterClosed(method_: Method)
      modifies this
      ensures View() == Attempted(old(View()), method_)
    {
      hide Calculated, InRegister;
      if register.Some? {
        CleanupRemovedVotes();
      }
      var valid := AnyValidVote();
      if valid {
        CalculateResult(method_);
      }
      state := Closed;
    }

    method TakeAutomaticTransition()
      modifies this
      ensures View() == Resolved(old(View()))
    {
      hide Decided;
      var populated := register.Some? && register.value != map[];
      var valid := AnyValidVote();
      if withheldResult && populated && valid && resultData.Some? {
        state := Withheld;
      } else if !withheldResult && populated && valid && resultData.Some? {
        SetProposalsFromResult();
        state := Finished;
      } else if !valid {
        state := NoResult;
      } else if !populated {
        state := NoResult;
      } else {
        state := Failed;
        ballotData, ballotChecksum, abstains := None, None, 0;
      }
    }

    /** Closing: entering the closed state and leaving it at once. */
    method Close(allowed: bool, method_: Method)
      requires Inv(View())
      modifies this
      ensures Inv(View()) && View() == After(old(View()), Event.Close, allowed, method_)
    {
      hide Inv, Attempted, Resolved, Closing, After;
      StepKeeps(View(), Event.Close, allowed, method_);
      CloseIsClosing(View(), allowed, method_);
      if !allowed || (state != Ongoing && state != Failed && state != Canceled) {
        return;
      }
      ClosingResolves(View(), method_);
      EnterClosed(method_);
      TakeAutomaticTransition();
    }

    /** Refused without a register and for voters not in it. */
    method SaveVote(vote: Vote) returns (ok: bool)
      requires Inv(View())
      modifies this
      ensures ok <==> register.Some? && vote.user in register.value
      ensures ok ==> exists x <- votes :: x.user == vote.user && x.abstain == vote.abstain
                                          && x.ballot == if vote.abstain then None else vote.ballot
      ensures forall x: Vote :: x.user != vote.user ==> (x in votes <==> x in old(votes))
      ensures OnePerVoter(votes) && (!ok ==> votes == old(votes))
      ensures forall m: Method :: View() == After(old(View()), CastVote(vote), true, m)
    {
      if register.None? || vote.user !in register.value {
        return false;
      }
      var clean := vote;
      if vote.abstain && vote.ballot.Some? {
        clean := vote.(ballot := None);
      }
      var i := IndexOf(votes, vote.user);
      SavedExact(View(), vote);
      if i < |votes| {
        votes := votes[i := clean];
      } else {
        votes := votes + [clean];
      }
      return true;
    }

    method MakeUpcoming(allowed: bool)
      requires Inv(View())
      modifies this
      ensures forall m: Method :: View() == After(old(View()), Event.MakeUpcoming, allowed, m)
    {
      if allowed && state == Private {
        LockProposals();
        state := Upcoming;
      }
    }

    /** `applied` is what the register policy puts in place. */
    method MakeOngoing(allowed: bool, applied: Option<map<int, int>>)
      requires Inv(View())
      modifies this
      ensures forall m: Method :: View() == After(old(View()), Event.MakeOngoing(applied), allowed, m)
    {
      if allowed && (state == Private || state == Upcoming) {
        LockProposals();
        state := Ongoing;
        register := applied;
      }
    }

    method Cancel(allowed: bool)
      requires Inv(View())
      modifies this
      ensures forall m: Method :: View() == After(old(View()), Event.Cancel, allowed, m)
    {
      if allowed && state == Ongoing {
        ReleaseProposals();
        state := Canceled;
      }
    }

    method PublishResult(allowed: bool)
      requires Inv(View())
      modifies this
      ensures forall m: Method :: View() == After(old(View()), Event.PublishResult, allowed, m)
    {
      if allowed && state == Withheld {
        SetProposalsFromResult();
        withheldResult := false;
        state := Finished;
      }
    }

    method WithholdResult(allowed: bool)
      requires Inv(View())
      modifies this
      ensures forall m: Method :: View() == After(old(View()), Event.WithholdResult, allowed, m)
    {
      if allowed && state == Finished {
        withheldResult := true;
        state := Withheld;
      }
    }
  }
}
