/** Bringing the roles of those who used an invite in line with it (voteit/invites/models.py,
    voteit/meeting/roles.py). */
module InviteRoles {
  import opened Collections
  import opened Roles
  import BulkInvites

  const PARTICIPANT: Role := "pa"

  /** Every role in a meeting requires that of a participant. */
  const MEETING_ROLES: Hierarchy :=
    map["pa" := {}, "mo" := {"pa"}, "pv" := {"pa"}, "di" := {"pa"}, "pr" := {"pa"}]

  type Invite = BulkInvites.Invite

  // ------------------------------------------------------------- the sync, stated

  function RolesToRemove(current: set<Role>, roles: set<Role>, ignore: set<Role>): set<Role> {
    current - roles - ignore
  }

  function Removed(h: Hierarchy, rows: Rows, user: User, current: set<Role>, roles: set<Role>,
                   ignore: set<Role>): Rows
  {
    var remove := RolesToRemove(current, roles, ignore);
    if remove == {} then rows else WithoutRoles(h, rows, user, remove)
  }

  /** `current` is what the user held when the sync began. */
  ghost function Synced(h: Hierarchy, rows: Rows, user: User, current: set<Role>, roles: set<Role>,
                        ignore: set<Role>): Rows
  {
    var add := roles - current - ignore;
    var left := Removed(h, rows, user, current, roles, ignore);
    if add == {} then left else WithRoles(h, left, user, add)
  }

  ghost function SyncedAll(h: Hierarchy, snapshot: Rows, invites: seq<Invite>, ignore: set<Role>): Rows {
    if invites == [] then snapshot else
      var before, i := SyncedAll(h, snapshot, invites[..|invites| - 1], ignore), invites[|invites| - 1];
      if i.usedBy.None? then before
      else Synced(h, before, i.usedBy.value, HeldBy(snapshot, i.usedBy.value), i.roles, ignore)
  }

  method UpdateAssignedRoles(meeting: RoleContext, invites: seq<Invite>, ignore: set<Role>)
    requires meeting.Valid()
    requires forall i <- invites :: i.roles <= meeting.h.Keys
    modifies meeting
    ensures meeting.rows == SyncedAll(meeting.h, old(meeting.rows), invites, ignore)
  {
    var snapshot := meeting.rows;
    for k := 0 to |invites|
      invariant meeting.Valid()
      invariant meeting.rows == SyncedAll(meeting.h, snapshot, invites[..k], ignore)
    {
      assert invites[..k + 1][..k] == invites[..k];
      var invite := invites[k];
      if invite.usedBy.Some? {
        var user := invite.usedBy.value;
        var currentRoles := if user in snapshot then snapshot[user] else {};
        var removeRoles := currentRoles - invite.roles - ignore;
        if removeRoles != {} {
          var _ := meeting.RemoveRoles(user, removeRoles);
        }
        var addRoles := invite.roles - currentRoles - ignore;
        if addRoles != {} {
          assert invite in invites;
          var _ := meeting.AddRoles(user, addRoles);
        }
      }
    }
    assert invites[..|invites|] == invites;
  }

  // ------------------------------------------------------------- what it comes to

  /** What stays of the blocked roles: those that require nothing that is removed. */
  function Blocked(h: Hierarchy, current: set<Role>, roles: set<Role>, ignore: set<Role>): set<Role> {
    current * ignore - Dependent(h, RolesToRemove(current, roles, ignore))
  }

  /** The roles of the invite, besides the blocked ones that stay. */
  function Wanted(h: Hierarchy, current: set<Role>, roles: set<Role>, ignore: set<Role>): set<Role> {
    roles + Blocked(h, current, roles, ignore)
  }

  /** A role is wanted when the invite has it, or when it is held and blocked and everything it
      requires is one the invite has or blocked as well. */
  lemma WantedMeans(h: Hierarchy, current: set<Role>, roles: set<Role>, ignore: set<Role>, r: Role)
    requires Closed(h, current)
    ensures r in Wanted(h, current, roles, ignore) <==>
            r in roles || (r in current && r in ignore && h[r] <= roles + ignore)
  {
    var remove := RolesToRemove(current, roles, ignore);
    if r in current && r in ignore {
      assert h[r] <= current;
      if h[r] <= roles + ignore {
        assert h[r] * remove == {};
      } else {
        var q :| q in h[r] && q !in roles + ignore;
        assert q in h[r] * remove;
      }
    }
  }

  /** Whatever the roles asked for, nobody else is touched and assignments stay closed. */
  lemma SyncKeeps(h: Hierarchy, rows: Rows, user: User, current: set<Role>, roles: set<Role>, ignore: set<Role>)
    requires WellFormed(h) && Transitive(h) && Consistent(h, rows) && roles <= h.Keys
    ensures var after := Synced(h, rows, user, current, roles, ignore);
            && Consistent(h, after)
            && Closed(h, HeldBy(after, user))
            && forall other :: other != user ==> HeldBy(after, other) == HeldBy(rows, other)
  {
    hide Closure, Dependent;
    var remove, add := RolesToRemove(current, roles, ignore), roles - current - ignore;
    if remove != {} {
      RemoveKeeps(h, rows, user, remove);
    }
    if add != {} {
      AddKeeps(h, Removed(h, rows, user, current, roles, ignore), user, add);
    }
  }

  lemma KeptRoles(h: Hierarchy, current: set<Role>, roles: set<Role>, ignore: set<Role>)
    requires WellFormed(h) && Closed(h, Wanted(h, current, roles, ignore)) && roles !! ignore && current <= h.Keys
    ensures current - Dependent(h, RolesToRemove(current, roles, ignore)) ==
            current * roles + Blocked(h, current, roles, ignore)
  {
    var remove := RolesToRemove(current, roles, ignore);
    forall r | r in roles ensures r !in Dependent(h, remove) {
      assert r in Wanted(h, current, roles, ignore);
      assert h[r] <= Wanted(h, current, roles, ignore);
      assert h[r] * remove == {};
    }
  }

  lemma RemovedHolds(h: Hierarchy, rows: Rows, user: User, current: set<Role>, roles: set<Role>, ignore: set<Role>)
    ensures HeldBy(Removed(h, rows, user, current, roles, ignore), user) ==
            HeldBy(rows, user) - Dependent(h, RolesToRemove(current, roles, ignore))
  {
    var remove := RolesToRemove(current, roles, ignore);
    if remove == {} {
      assert forall r :: r in h ==> h[r] * remove == {};
    }
  }

  /** The user ends up with the roles of the invite, besides blocked ones held before, if and only
      if these together have all they require. */
  lemma SyncExact(h: Hierarchy, rows: Rows, user: User, roles: set<Role>, ignore: set<Role>)
    requires WellFormed(h) && Transitive(h) && Consistent(h, rows)
    requires roles <= h.Keys && roles !! ignore
    ensures var wanted := Wanted(h, HeldBy(rows, user), roles, ignore);
            HeldBy(Synced(h, rows, user, HeldBy(rows, user), roles, ignore), user) == wanted <==> Closed(h, wanted)
  {
    hide Closure, Dependent, Removed;
    var current := HeldBy(rows, user);
    var wanted, add := Wanted(h, current, roles, ignore), roles - current - ignore;
    SyncKeeps(h, rows, user, current, roles, ignore);
    if Closed(h, wanted) {
      KeptRoles(h, current, roles, ignore);
      RemovedHolds(h, rows, user, current, roles, ignore);
      ClosureIsLeast(h, add);
      assert add <= wanted && Closure(h, add) <= wanted;
    }
  }

  /** That is so in particular when the roles of the invite have all they require themselves. */
  lemma ClosedIsEnough(h: Hierarchy, current: set<Role>, roles: set<Role>, ignore: set<Role>)
    requires WellFormed(h) && Transitive(h) && Closed(h, current) && Closed(h, roles)
    ensures Closed(h, Wanted(h, current, roles, ignore))
  {
    var remove, blocked := RolesToRemove(current, roles, ignore), Blocked(h, current, roles, ignore);
    forall r, q | r in blocked && q in h[r] ensures q in roles + blocked {
      assert q in current && h[q] <= h[r] && h[r] * remove == {};
      assert q !in h[r] * remove;
      assert h[q] * remove <= h[r] * remove;
    }
  }

  lemma SyncGivesRoles(h: Hierarchy, rows: Rows, user: User, roles: set<Role>, ignore: set<Role>)
    requires WellFormed(h) && Transitive(h) && Consistent(h, rows)
    requires Closed(h, roles) && roles !! ignore
    ensures HeldBy(Synced(h, rows, user, HeldBy(rows, user), roles, ignore), user) ==
            Wanted(h, HeldBy(rows, user), roles, ignore)
  {
    hide Synced, Wanted;
    assert Closed(h, HeldBy(rows, user));
    SyncExact(h, rows, user, roles, ignore);
    ClosedIsEnough(h, HeldBy(rows, user), roles, ignore);
  }

  /** Some role is required by every other, and requires none. */
  ghost predicate HasBase(h: Hierarchy, base: Role) {
    base in h && h[base] == {} && forall r :: r in h && r != base ==> base in h[r]
  }

  /** Where there is such a role, the row of a user stays between the removals and the additions
      if and only if that role is among those of the invite or blocked. */
  lemma SyncKeepsMembership(h: Hierarchy, rows: Rows, user: User, roles: set<Role>, ignore: set<Role>, base: Role)
    requires WellFormed(h) && Consistent(h, rows) && HasBase(h, base) && user in rows
    ensures user in Removed(h, rows, user, HeldBy(rows, user), roles, ignore) <==> base in roles + ignore
  {
    hide Closed;
    var current := rows[user];
    var remove := RolesToRemove(current, roles, ignore);
    BaseIsThere(h, current, base);
    var rest := current - Dependent(h, remove);
    if base in roles + ignore {
      assert h[base] * remove == {};
      assert base in rest;
    } else {
      forall r | r in h ensures r in Dependent(h, remove) {
        assert r != base ==> base in h[r] * remove;
      }
      PartOfHierarchy(h, current);
      assert rest == {};
    }
  }

  lemma PartOfHierarchy(h: Hierarchy, s: set<Role>)
    requires Closed(h, s)
    ensures s <= h.Keys
  {
  }

  lemma BaseIsThere(h: Hierarchy, s: set<Role>, base: Role)
    requires HasBase(h, base) && Closed(h, s) && s != {}
    ensures base in s
  {
    var r :| r in s;
    assert r == base || base in h[r];
  }

  /** An input: a participant who discusses is asked to discuss and propose, without the role these
      require. The row goes in between, and discussing is lost. */
  lemma UnclosedLosesRole(user: User)
    ensures var rows: Rows := map[user := {"pa", "di"}];
            && user !in Removed(MEETING_ROLES, rows, user, {"pa", "di"}, {"di", "pr"}, {})
            && HeldBy(Synced(MEETING_ROLES, rows, user, {"pa", "di"}, {"di", "pr"}, {}), user) == {"pa", "pr"}
  {
    var rows: Rows := map[user := {"pa", "di"}];
    var current, roles := {"pa", "di"}, {"di", "pr"};
    assert RolesToRemove(current, roles, {}) == {"pa"};
    assert MEETING_ROLES["di"] * {"pa"} == {"pa"};
    assert current - Dependent(MEETING_ROLES, {"pa"}) == {};
    assert roles - current - {} == {"pr"};
    MeetingRolesAreWellMade();
    assert Closed(MEETING_ROLES, {"pa", "pr"});
    ClosureIsLeast(MEETING_ROLES, {"pr"});
    assert Closure(MEETING_ROLES, {"pr"}) == {"pa", "pr"};
  }

  lemma MeetingRolesAreWellMade()
    ensures WellFormed(MEETING_ROLES) && Transitive(MEETING_ROLES) && HasBase(MEETING_ROLES, PARTICIPANT)
  {
  }

  // ------------------------------------------------------- all invites of a call

  predicate UsedBy(invites: seq<Invite>, user: User) {
    exists i <- invites :: i.usedBy == Some(user)
  }

  /** A second invite of the same user with the same roles changes nothing more, although it works
      from what the user held before the first. */
  lemma ResyncKeeps(h: Hierarchy, rows: Rows, user: User, current: set<Role>, roles: set<Role>, ignore: set<Role>)
    requires WellFormed(h) && roles !! ignore && Closed(h, Wanted(h, current, roles, ignore))
    requires HeldBy(rows, user) == Wanted(h, current, roles, ignore)
    ensures Synced(h, rows, user, current, roles, ignore) == rows
  {
    hide Closure;
    var remove, add := RolesToRemove(current, roles, ignore), roles - current - ignore;
    forall r | r in HeldBy(rows, user) ensures r !in Dependent(h, remove) {
      if r in roles {
        assert h[r] <= Wanted(h, current, roles, ignore);
        assert h[r] * remove == {};
      }
    }
    assert HeldBy(rows, user) - Dependent(h, remove) == HeldBy(rows, user);
    if add != {} {
      ClosureIsLeast(h, add);
      assert Closure(h, add) <= HeldBy(rows, user);
      assert HeldBy(rows, user) + Closure(h, add) == HeldBy(rows, user);
      var r :| r in add;
      assert r in HeldBy(rows, user) && user in rows;
      assert rows[user := rows[user]] == rows;
    }
  }

  /** All invites of a call are given the same roles. Whoever used one or more of them ends up with
      these roles besides blocked ones held before, if and only if these have all they require; and
      nobody else is touched. */
  lemma {:induction false} SyncAllExact(h: Hierarchy, rows: Rows, invites: seq<Invite>, roles: set<Role>,
                                        ignore: set<Role>)
    requires WellFormed(h) && Transitive(h) && Consistent(h, rows)
    requires roles <= h.Keys && roles !! ignore
    requires forall i <- invites :: i.roles == roles
    ensures Consistent(h, SyncedAll(h, rows, invites, ignore))
    ensures forall user: User ::
              var held := HeldBy(SyncedAll(h, rows, invites, ignore), user);
              var wanted := Wanted(h, HeldBy(rows, user), roles, ignore);
              if UsedBy(invites, user) then held == wanted <==> Closed(h, wanted) else held == HeldBy(rows, user)
  {
    hide Synced, Consistent, Transitive, WellFormed, Wanted, Closed;
    if invites != [] {
      var init, last := invites[..|invites| - 1], invites[|invites| - 1];
      assert invites == init + [last];
      assert last in invites && forall i <- init :: i in invites;
      SyncAllExact(h, rows, init, roles, ignore);
      forall user: User ensures UsedBy(invites, user) <==> UsedBy(init, user) || last.usedBy == Some(user) {
        assert forall i <- invites :: i in init || i == last;
      }
      if last.usedBy.Some? {
        var user := last.usedBy.value;
        SyncNext(h, rows, SyncedAll(h, rows, init, ignore), user, roles, ignore, UsedBy(init, user));
      }
    }
  }

  /** One more invite, whether its user used an earlier one or not. */
  lemma SyncNext(h: Hierarchy, rows: Rows, before: Rows, user: User, roles: set<Role>, ignore: set<Role>, again: bool)
    requires WellFormed(h) && Transitive(h) && Consistent(h, rows) && Consistent(h, before)
    requires roles <= h.Keys && roles !! ignore
    requires var wanted := Wanted(h, HeldBy(rows, user), roles, ignore);
             if again then HeldBy(before, user) == wanted <==> Closed(h, wanted)
             else HeldBy(before, user) == HeldBy(rows, user)
    ensures var after := Synced(h, before, user, HeldBy(rows, user), roles, ignore);
            var wanted := Wanted(h, HeldBy(rows, user), roles, ignore);
            && Consistent(h, after)
            && (HeldBy(after, user) == wanted <==> Closed(h, wanted))
            && forall other :: other != user ==> HeldBy(after, other) == HeldBy(before, other)
  {
    hide Synced, Consistent, Transitive, WellFormed, Wanted, Closed;
    SyncKeeps(h, before, user, HeldBy(rows, user), roles, ignore);
    if !again {
      SyncExact(h, before, user, roles, ignore);
    } else if Closed(h, Wanted(h, HeldBy(rows, user), roles, ignore)) {
      ResyncKeeps(h, before, user, HeldBy(rows, user), roles, ignore);
    }
  }

  lemma SyncAllGivesRoles(h: Hierarchy, rows: Rows, invites: seq<Invite>, roles: set<Role>, ignore: set<Role>,
                          user: User)
    requires WellFormed(h) && Transitive(h) && Consistent(h, rows)
    requires Closed(h, roles) && roles !! ignore
    requires forall i <- invites :: i.roles == roles
    ensures HeldBy(SyncedAll(h, rows, invites, ignore), user) ==
            if UsedBy(invites, user) then Wanted(h, HeldBy(rows, user), roles, ignore) else HeldBy(rows, user)
  {
    hide SyncedAll, Wanted;
    assert Closed(h, HeldBy(rows, user));
    SyncAllExact(h, rows, invites, roles, ignore);
    ClosedIsEnough(h, HeldBy(rows, user), roles, ignore);
  }

  predicate IsSynced(invites: seq<Invite>, data: seq<BulkInvites.UserData>, roles: set<Role>, user: User) {
    exists x <- invites :: BulkInvites.Changes(x, data, roles) && x.usedBy == Some(user)
  }

  /** The whole of a bulk call, with the users of the invites it gives other roles. */
  method CreateOrUpdateMixed(manager: BulkInvites.MeetingInvites, meeting: RoleContext,
                             data: seq<BulkInvites.UserData>, roles: set<Role>, ignore: set<Role>, known: set<string>)
    returns (r: BulkInvites.Result<BulkInvites.InviteResult>)
    requires BulkInvites.Valid(manager.invites, manager.nextPk) && meeting.Valid() && roles <= meeting.h.Keys
    modifies manager, meeting
    ensures BulkInvites.Valid(manager.invites, manager.nextPk)
    ensures r.PartialInvitesFound? ==> manager.invites == old(manager.invites) && meeting.rows == old(meeting.rows)
    ensures r.Ok? && Transitive(meeting.h) && Consistent(meeting.h, old(meeting.rows)) ==>
              && Consistent(meeting.h, meeting.rows)
              && forall user: User ::
                   var held, before := HeldBy(meeting.rows, user), HeldBy(old(meeting.rows), user);
                   var wanted := Wanted(meeting.h, before, roles - ignore, ignore);
                   if IsSynced(old(manager.invites), data, roles - ignore, user)
                   then held == wanted <==> Closed(meeting.h, wanted) else held == before
  {
    hide Consistent, Transitive, Closed, Wanted, SyncedAll, BulkInvites.Changes, BulkInvites.ToSync;
    var toSync;
    r, toSync := manager.CreateOrUpdateMixed(data, roles, ignore, known);
    if r.PartialInvitesFound? {
      return;
    }
    BulkInvites.ToSyncIsExact(old(manager.invites), data, roles - ignore);
    UpdateAssignedRoles(meeting, toSync, ignore);
    if Transitive(meeting.h) && Consistent(meeting.h, old(meeting.rows)) {
      SyncAllExact(meeting.h, old(meeting.rows), toSync, roles - ignore, ignore);
      forall user: User
        ensures UsedBy(toSync, user) <==> IsSynced(old(manager.invites), data, roles - ignore, user)
      {
      }
    }
  }
}
