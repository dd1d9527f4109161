/** Meeting roles that come with roles in groups (voteit/meeting/signals.py). */
module GroupRoles {
  import opened Collections
  import opened Roles

  type Group = int

  type GroupRole = int

  datatype Membership = Membership(user: User, group: Group)

  /** The meeting as far as group roles go: which roles in groups bring which meeting roles, who is
      in which group with which role, and who has which meeting roles. */
  datatype World = World(
    active: bool,
    brings: map<GroupRole, set<Role>>,
    memberships: map<Membership, Option<GroupRole>>,
    rows: Rows)

  datatype Step =
    | Join(m: Membership)                       // without a role
    | Leave(m: Membership)
    | Grant(m: Membership, role: GroupRole)     // to one without
    | Revoke(m: Membership)
    | Exchange(m: Membership, role: GroupRole)  // the old role is taken back, then the new one given
    | Switch(m: Membership, role: GroupRole)    // an update through the API from one role to another
    | Activate(active: bool)
    | Give(user: User, roles: set<Role>)        // by a moderator or an invite
    | Take(user: User, roles: set<Role>)        // likewise

  // ------------------------------------------------------------- the handlers

  function RolesOf(w: World, m: Membership): set<Role> {
    if m in w.memberships && w.memberships[m].Some? && w.memberships[m].value in w.brings
    then w.brings[w.memberships[m].value] else {}
  }

  /** What the user's other groups bring. */
  function Elsewhere(w: World, m: Membership): set<Role> {
    set o, r | o in w.memberships.Keys && o.user == m.user && o.group != m.group && r in RolesOf(w, o) :: r
  }

  function Bring(w: World, role: GroupRole): set<Role> {
    if role in w.brings then w.brings[role] else {}
  }

  function Union(sets: seq<set<Role>>): set<Role> {
    if sets == [] then {} else Union(sets[..|sets| - 1]) + sets[|sets| - 1]
  }

  /** Which of the roles to take away: those no other membership brings. Stops early when nothing
      is left to take. */
  method RolesToRemove(roles: set<Role>, others: seq<set<Role>>) returns (remove: set<Role>)
    ensures remove == roles - Union(others)
  {
    remove := roles;
    if remove == {} {
      return;
    }
    for i := 0 to |others|
      invariant remove == roles - Union(others[..i])
    {
      assert others[..i + 1][..i] == others[..i];
      remove := remove - others[i];
      if remove == {} {
        UnionGrows(others, i + 1);
        assert roles - Union(others) <= remove;
        return;
      }
    }
    assert others[..|others|] == others;
  }

  lemma {:induction false} UnionGrows(sets: seq<set<Role>>, i: nat)
    requires i <= |sets|
    ensures Union(sets[..i]) <= Union(sets)
  {
    if i < |sets| {
      assert sets[..|sets| - 1][..i] == sets[..i];
      UnionGrows(sets[..|sets| - 1], i);
    } else {
      assert sets[..i] == sets;
    }
  }

  ghost function Granted(h: Hierarchy, w: World, m: Membership, role: GroupRole): World {
    var v := w.(memberships := w.memberships[m := Some(role)]);
    if Bring(w, role) == {} then v else v.(rows := WithRoles(h, w.rows, m.user, Bring(w, role)))
  }

  /** Taking roles away. A row that goes with its last role takes the user's memberships along. */
  function Taken(h: Hierarchy, w: World, user: User, roles: set<Role>): World {
    var rows := WithoutRoles(h, w.rows, user, roles);
    if user in w.rows && user !in rows
    then w.(rows := rows, memberships := map m | m in w.memberships && m.user != user :: w.memberships[m])
    else w.(rows := rows)
  }

  function Revoked(h: Hierarchy, w: World, m: Membership): World {
    var v := w.(memberships := w.memberships[m := None]);
    var remove := RolesOf(w, m) - Elsewhere(w, m);
    if !w.active || remove == {} then v else Taken(h, v, m.user, remove)
  }

  ghost function Next(h: Hierarchy, w: World, s: Step): World {
    match s
    case Join(m) => if m in w.memberships then w else w.(memberships := w.memberships[m := None])
    case Leave(m) =>
      if m !in w.memberships then w
      else
        var v := Revoked(h, w, m);
        v.(memberships := v.memberships - {m})
    case Grant(m, role) => if m in w.memberships && w.memberships[m].Some? then w else Granted(h, w, m, role)
    case Revoke(m) => if m in w.memberships then Revoked(h, w, m) else w
    case Exchange(m, role) => if m in w.memberships then Granted(h, Revoked(h, w, m), m, role) else w
    case Switch(m, role) =>
      if m in w.memberships && w.memberships[m].Some? then w.(memberships := w.memberships[m := Some(role)]) else w
    case Activate(active) => w.(active := active)
    case Give(user, roles) => w.(rows := WithRoles(h, w.rows, user, roles))
    case Take(user, roles) => Taken(h, w, user, roles)
  }

  // ------------------------------------------------- what is taken and what is given

  /** Another group of the user brings the role. */
  ghost predicate BroughtElsewhere(w: World, m: Membership, r: Role) {
    exists o :: o in w.memberships && o.user == m.user && o.group != m.group && Brings(w, w.memberships[o], r)
  }

  predicate Brings(w: World, role: Option<GroupRole>, r: Role) {
    role.Some? && role.value in w.brings && r in w.brings[role.value]
  }

  /** The membership alone brings the role. */
  ghost predicate OnlyHere(w: World, m: Membership, r: Role) {
    m in w.memberships && Brings(w, w.memberships[m], r) && !BroughtElsewhere(w, m, r)
  }

  /** What a revocation takes from the user: what only this membership brings, and the roles that
      require such a one directly. */
  ghost predicate Goes(h: Hierarchy, w: World, m: Membership, r: Role) {
    w.active && r in h && (OnlyHere(w, m, r) || exists q :: q in h[r] && OnlyHere(w, m, q))
  }

  lemma OnlyHereIs(w: World, m: Membership)
    ensures forall r :: r in RolesOf(w, m) - Elsewhere(w, m) <==> OnlyHere(w, m, r)
  {
    forall r ensures r in Elsewhere(w, m) <==> BroughtElsewhere(w, m, r) {
      if BroughtElsewhere(w, m, r) {
        var o :| o in w.memberships && o.user == m.user && o.group != m.group && Brings(w, w.memberships[o], r);
        assert o in w.memberships.Keys && r in RolesOf(w, o);
      }
      if r in Elsewhere(w, m) {
        var o :| o in w.memberships.Keys && o.user == m.user && o.group != m.group && r in RolesOf(w, o);
        assert Brings(w, w.memberships[o], r);
      }
    }
  }

  /** A revocation takes exactly that: a role stays if and only if it was held and does not go. It
      takes nothing from others, and the membership loses its role, or all memberships of the user
      go with the last role held. */
  lemma RevokedTakesExactly(h: Hierarchy, w: World, m: Membership)
    ensures var v := Revoked(h, w, m);
            && (forall r :: r in HeldBy(v.rows, m.user) <==> r in HeldBy(w.rows, m.user) && !Goes(h, w, m, r))
            && v.rows - {m.user} == w.rows - {m.user}
            && (m.user in v.rows <==> m.user in w.rows && (HeldBy(v.rows, m.user) == {} ==> w.rows[m.user] == {}))
            && v.active == w.active && v.brings == w.brings
            && (m.user in v.rows || m.user !in w.rows ==> v.memberships == w.memberships[m := None])
            && (m.user in w.rows && m.user !in v.rows ==>
                  v.memberships == map o | o in w.memberships && o.user != m.user :: w.memberships[o])
  {
    hide RolesOf, Elsewhere, WithoutRoles, OnlyHere;
    var remove := RolesOf(w, m) - Elsewhere(w, m);
    OnlyHereIs(w, m);
    RemovalIsExact(h, w.rows, m.user, remove);
    forall r ensures Goes(h, w, m, r) <==>
                     w.active && r in h && (r in remove || exists q :: q in remove && q in h[r]) {
      if q :| r in h && q in h[r] && OnlyHere(w, m, q) {
        assert q in remove;
      }
      if q :| r in h && q in remove && q in h[r] {
        assert OnlyHere(w, m, q);
      }
    }
    if remove == {} {
      assert forall r :: !OnlyHere(w, m, r);
    }
  }

  /** A role in a group that is given brings its roles with all they require, and takes nothing. */
  lemma GrantedGivesExactly(h: Hierarchy, w: World, m: Membership, role: GroupRole)
    requires WellFormed(h) && Bring(w, role) <= h.Keys
    ensures var v := Granted(h, w, m, role);
            && v.memberships == w.memberships[m := Some(role)] && v.active == w.active && v.brings == w.brings
            && v.rows - {m.user} == w.rows - {m.user}
            && (forall r :: Brings(w, Some(role), r) ==> r in HeldBy(v.rows, m.user))
            && (forall r :: r in HeldBy(v.rows, m.user) <==>
                  r in HeldBy(w.rows, m.user) || r in Closure(h, Bring(w, role)))
  {
    ClosureIsLeast(h, Bring(w, role));
    if Bring(w, role) == {} {
      assert Closed(h, {});
    }
  }

  /** Leaving a group takes what a revocation takes, and the membership is gone. */
  lemma LeavingTakesExactly(h: Hierarchy, w: World, m: Membership)
    requires m in w.memberships
    ensures var v := Next(h, w, Leave(m));
            && m !in v.memberships && v.rows - {m.user} == w.rows - {m.user}
            && (forall r :: r in HeldBy(v.rows, m.user) <==> r in HeldBy(w.rows, m.user) && !Goes(h, w, m, r))
  {
    hide Revoked, Goes;
    RevokedTakesExactly(h, w, m);
  }

  /** Exchanging one role for another takes what only the old one brought, and gives what the new
      one brings. */
  lemma ExchangeIsExact(h: Hierarchy, w: World, m: Membership, role: GroupRole)
    requires m in w.memberships && WellFormed(h) && Bring(w, role) <= h.Keys
    ensures var v := Next(h, w, Exchange(m, role));
            && m in v.memberships && v.memberships[m] == Some(role) && v.rows - {m.user} == w.rows - {m.user}
            && (forall r :: r in HeldBy(v.rows, m.user) <==>
                  (r in HeldBy(w.rows, m.user) && !Goes(h, w, m, r)) || r in Closure(h, Bring(w, role)))
            && (forall r :: Brings(w, Some(role), r) ==> r in HeldBy(v.rows, m.user))
  {
    hide Revoked, Granted, Goes, Closure;
    RevokedTakesExactly(h, w, m);
    GrantedGivesExactly(h, Revoked(h, w, m), m, role);
  }

  // ------------------------------------------------- the handler of a revocation

  /** The roles brought by the user's other memberships that have a role, as they are listed. */
  function OthersOf(w: World, order: seq<Membership>, m: Membership): seq<set<Role>> {
    if order == [] then [] else
      var before, o := OthersOf(w, order[..|order| - 1], m), order[|order| - 1];
      if o.user == m.user && o.group != m.group && o in w.memberships && w.memberships[o].Some?
      then before + [RolesOf(w, o)] else before
  }

  function BroughtBy(w: World, order: seq<Membership>, m: Membership): set<Role> {
    set o, r | o in order && o.user == m.user && o.group != m.group && r in RolesOf(w, o) :: r
  }

  lemma {:induction false} OthersAreBrought(w: World, order: seq<Membership>, m: Membership)
    ensures Union(OthersOf(w, order, m)) == BroughtBy(w, order, m)
  {
    if order != [] {
      var init, o := order[..|order| - 1], order[|order| - 1];
      assert order == init + [o];
      OthersAreBrought(w, init, m);
      var before := OthersOf(w, init, m);
      assert (before + [RolesOf(w, o)])[..|before|] == before;
      var brought := if o.user == m.user && o.group != m.group then RolesOf(w, o) else {};
      forall r ensures r in BroughtBy(w, order, m) <==> r in BroughtBy(w, init, m) + brought {
        if r in BroughtBy(w, order, m) {
          var p :| p in order && p.user == m.user && p.group != m.group && r in RolesOf(w, p);
          assert p in init || p == o;
        }
        if r in BroughtBy(w, init, m) {
          var p :| p in init && p.user == m.user && p.group != m.group && r in RolesOf(w, p);
          assert p in order;
        }
        assert o in order;
      }
    }
  }

  /** In whatever order they are listed, together they bring what the other groups bring. */
  lemma OthersAreElsewhere(w: World, order: seq<Membership>, m: Membership)
    requires (set o <- order) == w.memberships.Keys
    ensures Union(OthersOf(w, order, m)) == Elsewhere(w, m)
  {
    OthersAreBrought(w, order, m);
    assert forall o :: o in order <==> o in w.memberships.Keys by {
      assert forall o :: o in order <==> o in (set p <- order);
    }
  }

  /** The handler of a role taken back: nothing to take, or not for this meeting, or the loop over
      the other memberships and the removal. `w` is the meeting as it is found. */
  method HandleRevoked(meeting: RoleContext, w: World, order: seq<Membership>, m: Membership)
    requires meeting.Valid() && meeting.rows == w.rows && (set o <- order) == w.memberships.Keys
    modifies meeting
    ensures meeting.rows == Revoked(meeting.h, w, m).rows
    ensures forall r :: r in HeldBy(meeting.rows, m.user) <==>
              r in HeldBy(w.rows, m.user) && !Goes(meeting.h, w, m, r)
    ensures meeting.rows - {m.user} == w.rows - {m.user}
  {
    hide Elsewhere, Goes;
    RevokedTakesExactly(meeting.h, w, m);
    OthersAreElsewhere(w, order, m);
    var roles := RolesOf(w, m);
    if roles == {} {
      assert roles - Elsewhere(w, m) == {};
      return;
    }
    if !w.active {
      return;
    }
    var remove := RolesToRemove(roles, OthersOf(w, order, m));
    if remove == {} {
      return;
    }
    var _ := meeting.RemoveRoles(m.user, remove);
  }

  // ------------------------------------------------------------- the invariant

  /** Group roles bring roles together with all they require. */
  ghost predicate WellMade(h: Hierarchy, brings: map<GroupRole, set<Role>>) {
    forall role :: role in brings ==> Closed(h, brings[role])
  }

  /** Everyone holds what their groups bring. */
  ghost predicate Covered(w: World) {
    forall m :: m in w.memberships ==> RolesOf(w, m) <= HeldBy(w.rows, m.user)
  }

  function Required(h: Hierarchy, r: Role): set<Role> {
    if r in h then h[r] else {}
  }

  /** A revocation leaves the user with what the other groups bring exactly when none of that
      requires something that is taken away. */
  lemma RevokeExact(h: Hierarchy, w: World, m: Membership)
    requires WellFormed(h) && Covered(w) && m in w.memberships
    requires forall role :: role in w.brings ==> w.brings[role] <= h.Keys
    ensures Elsewhere(w, m) <= HeldBy(Revoked(h, w, m).rows, m.user) <==>
            !w.active || forall r :: r in Elsewhere(w, m) ==> Required(h, r) !! RolesOf(w, m) - Elsewhere(w, m)
  {
    var keep, remove, held := Elsewhere(w, m), RolesOf(w, m) - Elsewhere(w, m), HeldBy(w.rows, m.user);
    ElsewhereIsHeld(w, m);
    var v := Revoked(h, w, m);
    if w.active && remove != {} {
      WithoutHolds(h, w.rows, m.user, remove);
      forall r | r in keep ensures r in HeldBy(v.rows, m.user) <==> Required(h, r) !! remove {
        var o :| o in w.memberships.Keys && o.user == m.user && o.group != m.group && r in RolesOf(w, o);
        var role := w.memberships[o].value;
        assert role in w.brings && r in w.brings[role] && w.brings[role] <= h.Keys;
        assert r !in remove && r in held;
        assert r in Dependent(h, remove) <==> h[r] * remove != {};
        if h[r] * remove != {} {
          var q := Choose(h[r] * remove);
          assert q in h[r] && q in remove;
        } else {
          assert forall q :: q in h[r] && q in remove ==> q in h[r] * remove;
        }
      }
    }
  }

  lemma WithoutHolds(h: Hierarchy, rows: Rows, user: User, roles: set<Role>)
    ensures HeldBy(WithoutRoles(h, rows, user, roles), user) == HeldBy(rows, user) - Dependent(h, roles)
    ensures forall other :: other != user ==> HeldBy(WithoutRoles(h, rows, user, roles), other) == HeldBy(rows, other)
  {
  }

  lemma ElsewhereIsHeld(w: World, m: Membership)
    requires Covered(w)
    ensures Elsewhere(w, m) <= HeldBy(w.rows, m.user)
  {
  }

  /** What the other groups bring is closed, if each of them is. */
  lemma ElsewhereIsClosed(h: Hierarchy, w: World, m: Membership)
    requires WellMade(h, w.brings)
    ensures Closed(h, Elsewhere(w, m))
  {
    forall r | r in Elsewhere(w, m) ensures r in h.Keys && h[r] <= Elsewhere(w, m) {
      var o :| o in w.memberships.Keys && o.user == m.user && o.group != m.group && r in RolesOf(w, o);
      var role := w.memberships[o].value;
      assert role in w.brings && Closed(h, w.brings[role]);
      assert forall q :: q in h[r] ==> q in RolesOf(w, o);
    }
  }

  lemma RevokeKeeps(h: Hierarchy, w: World, m: Membership)
    requires WellFormed(h) && WellMade(h, w.brings) && Covered(w) && m in w.memberships
    ensures Covered(Revoked(h, w, m))
  {
    hide Elsewhere;
    var v := Revoked(h, w, m);
    var remove := RolesOf(w, m) - Elsewhere(w, m);
    ElsewhereIsClosed(h, w, m);
    ElsewhereIsHeld(w, m);
    WithoutHolds(h, w.rows, m.user, remove);
    RemoveIsGreatest(h, HeldBy(w.rows, m.user), remove, Elsewhere(w, m));
    forall o | o in v.memberships ensures RolesOf(v, o) <= HeldBy(v.rows, o.user) {
      if o != m {
        assert RolesOf(v, o) == RolesOf(w, o);
        if o.user == m.user {
          PartOfElsewhere(w, m, o);
        }
      }
    }
  }

  lemma PartOfElsewhere(w: World, m: Membership, o: Membership)
    requires o in w.memberships && o.user == m.user && o != m
    ensures RolesOf(w, o) <= Elsewhere(w, m)
  {
  }

  lemma GrantKeeps(h: Hierarchy, w: World, m: Membership, role: GroupRole)
    requires WellFormed(h) && WellMade(h, w.brings) && Covered(w)
    ensures Covered(Granted(h, w, m, role))
  {
    var v := Granted(h, w, m, role);
    assert Closed(h, {});
    assert Closed(h, Bring(w, role));
    ClosureIsLeast(h, Bring(w, role));
    forall o | o in v.memberships ensures RolesOf(v, o) <= HeldBy(v.rows, o.user) {
      if o != m {
        assert RolesOf(v, o) == RolesOf(w, o);
      }
    }
  }

  /** The memberships are the same or fewer, and nobody who still has one lost what it brings. */
  lemma StaysCovered(w: World, v: World)
    requires Covered(w) && v.brings == w.brings
    requires forall m :: m in v.memberships ==>
               v.memberships[m] == if m in w.memberships then w.memberships[m] else None
    requires forall m :: m in v.memberships && m in w.memberships ==>
               RolesOf(w, m) * HeldBy(w.rows, m.user) <= HeldBy(v.rows, m.user)
    ensures Covered(v)
  {
    forall m | m in v.memberships ensures RolesOf(v, m) <= HeldBy(v.rows, m.user) {
      if m in w.memberships {
        assert RolesOf(w, m) == RolesOf(v, m);
        assert RolesOf(w, m) <= HeldBy(w.rows, m.user);
        assert RolesOf(w, m) * HeldBy(w.rows, m.user) == RolesOf(w, m);
      }
    }
  }

  /** Roles are taken from a user whose groups bring none that are among them or require one of
      them directly, or who is left with none and so leaves every group. */
  predicate TakesNothingBrought(h: Hierarchy, w: World, user: User, roles: set<Role>) {
    || (user in w.rows && user !in WithoutRoles(h, w.rows, user, roles))
    || forall m <- w.memberships.Keys :: m.user == user ==> RolesOf(w, m) !! Dependent(h, roles)
  }

  lemma TakeExact(h: Hierarchy, w: World, user: User, roles: set<Role>)
    requires Covered(w)
    ensures Covered(Taken(h, w, user, roles)) <==> TakesNothingBrought(h, w, user, roles)
  {
    hide WithoutRoles, Dependent;
    var v := Taken(h, w, user, roles);
    WithoutHolds(h, w.rows, user, roles);
    if TakesNothingBrought(h, w, user, roles) {
      forall m | m in v.memberships ensures RolesOf(w, m) * HeldBy(w.rows, m.user) <= HeldBy(v.rows, m.user) {
        assert m in w.memberships.Keys;
      }
      StaysCovered(w, v);
    } else {
      var m :| m in w.memberships.Keys && m.user == user && !(RolesOf(w, m) !! Dependent(h, roles));
      var r :| r in RolesOf(w, m) && r in Dependent(h, roles);
      assert m in v.memberships && RolesOf(v, m) == RolesOf(w, m);
    }
  }

  /** What keeps everyone covered: an update from one role straight to another tells nobody, so the
      user has to hold what the new role brings; and roles taken by a moderator or by an invite
      must not be those a group brings. Everything else does. */
  predicate Harmless(h: Hierarchy, w: World, s: Step) {
    match s
    case Switch(m, role) =>
      m in w.memberships && w.memberships[m].Some? ==> Bring(w, role) <= HeldBy(w.rows, m.user)
    case Take(user, roles) => TakesNothingBrought(h, w, user, roles)
    case _ => true
  }

  /** Exactly these steps keep everyone covered. */
  lemma StepExact(h: Hierarchy, w: World, s: Step)
    requires WellFormed(h) && WellMade(h, w.brings) && Covered(w)
    ensures Covered(Next(h, w, s)) <==> Harmless(h, w, s)
  {
    hide Revoked, Granted, Taken, Elsewhere, Closed, TakesNothingBrought, WithRoles;
    var v := Next(h, w, s);
    match s
    case Leave(m) => LeaveKeeps(h, w, m);
    case Grant(m, role) => GrantKeeps(h, w, m, role);
    case Revoke(m) =>
      if m in w.memberships {
        RevokeKeeps(h, w, m);
      }
    case Exchange(m, role) =>
      if m in w.memberships {
        RevokeKeeps(h, w, m);
        RevokedKeepsBrings(h, w, m);
        GrantKeeps(h, Revoked(h, w, m), m, role);
      }
    case Switch(m, role) => SwitchExact(h, w, m, role);
    case Join(m) => StaysCovered(w, v);
    case Activate(_) => StaysCovered(w, v);
    case Give(user, roles) =>
      WithHolds(h, w.rows, user, roles);
      StaysCovered(w, v);
    case Take(user, roles) => TakeExact(h, w, user, roles);
  }

  lemma LeaveKeeps(h: Hierarchy, w: World, m: Membership)
    requires WellFormed(h) && WellMade(h, w.brings) && Covered(w)
    ensures Covered(Next(h, w, Leave(m)))
  {
    hide Revoked, WellMade;
    if m in w.memberships {
      RevokeKeeps(h, w, m);
      StaysCovered(Revoked(h, w, m), Next(h, w, Leave(m)));
    }
  }

  lemma SwitchExact(h: Hierarchy, w: World, m: Membership, role: GroupRole)
    requires Covered(w)
    ensures Covered(Next(h, w, Switch(m, role))) <==> Harmless(h, w, Switch(m, role))
  {
    var v := Next(h, w, Switch(m, role));
    if m in w.memberships && w.memberships[m].Some? {
      assert RolesOf(v, m) == Bring(w, role);
      forall o | o in v.memberships && o != m ensures RolesOf(v, o) <= HeldBy(v.rows, o.user) {
        assert RolesOf(v, o) == RolesOf(w, o);
      }
    }
  }

  lemma WithHolds(h: Hierarchy, rows: Rows, user: User, roles: set<Role>)
    ensures forall other :: HeldBy(rows, other) <= HeldBy(WithRoles(h, rows, user, roles), other)
  {
  }

  /** An input: discussing, which the user's group brings, is taken by a moderator. */
  lemma TakenFromUnderGroup(m: Membership)
    ensures var h: Hierarchy := map["pa" := {}, "di" := {"pa"}];
            var w := World(true, map[0 := {"pa", "di"}], map[m := Some(0)], map[m.user := {"pa", "di"}]);
            && WellFormed(h) && WellMade(h, w.brings) && Covered(w)
            && !Covered(Next(h, w, Take(m.user, {"di"})))
  {
    var h: Hierarchy := map["pa" := {}, "di" := {"pa"}];
    var w := World(true, map[0 := {"pa", "di"}], map[m := Some(0)], map[m.user := {"pa", "di"}]);
    assert h["pa"] * {"di"} == {} && h["di"] * {"di"} == {};
    assert HeldBy(w.rows, m.user) - Dependent(h, {"di"}) == {"pa"};
    var v := Next(h, w, Take(m.user, {"di"}));
    assert m in v.memberships && "di" in RolesOf(v, m) && "di" !in HeldBy(v.rows, m.user);
  }

  /** An input: a participant switched to a role that brings discussing as well does not get it. */
  lemma SwitchIsNotSignalled(h: Hierarchy, m: Membership)
    ensures var w := World(true, map[0 := {"pa"}, 1 := {"pa", "di"}], map[m := Some(0)], map[m.user := {"pa"}]);
            && Covered(w)
            && HeldBy(Next(h, w, Switch(m, 1)).rows, m.user) == {"pa"}
            && !Covered(Next(h, w, Switch(m, 1)))
  {
    var w := World(true, map[0 := {"pa"}, 1 := {"pa", "di"}], map[m := Some(0)], map[m.user := {"pa"}]);
    var v := Next(h, w, Switch(m, 1));
    assert RolesOf(w, m) == {"pa"};
    assert "di" in RolesOf(v, m) && "di" !in HeldBy(v.rows, m.user);
  }

  lemma RevokedKeepsBrings(h: Hierarchy, w: World, m: Membership)
    ensures Revoked(h, w, m).brings == w.brings
  {
  }

  // -------------------------------------------------------------- over runs

  ghost function Run(h: Hierarchy, w: World, steps: seq<Step>): World {
    if steps == [] then w else Next(h, Run(h, w, steps[..|steps| - 1]), steps[|steps| - 1])
  }

  lemma StepKeepsBrings(h: Hierarchy, w: World, s: Step)
    ensures Next(h, w, s).brings == w.brings
  {
  }

  lemma {:induction false} HarmlessRun(h: Hierarchy, w: World, steps: seq<Step>, n: nat)
    requires WellFormed(h) && WellMade(h, w.brings) && Covered(w) && n <= |steps|
    requires forall k :: 0 <= k < n ==> Harmless(h, Run(h, w, steps[..k]), steps[k])
    ensures Covered(Run(h, w, steps[..n])) && Run(h, w, steps[..n]).brings == w.brings
  {
    hide Next, Covered, WellMade, Harmless;
    if n > 0 {
      HarmlessRun(h, w, steps, n - 1);
      assert steps[..n][..n - 1] == steps[..n - 1];
      StepExact(h, Run(h, w, steps[..n - 1]), steps[n - 1]);
      StepKeepsBrings(h, Run(h, w, steps[..n - 1]), steps[n - 1]);
    }
  }

  lemma {:induction false} RunBrings(h: Hierarchy, w: World, steps: seq<Step>)
    ensures Run(h, w, steps).brings == w.brings
  {
    hide Next;
    if steps != [] {
      RunBrings(h, w, steps[..|steps| - 1]);
      StepKeepsBrings(h, Run(h, w, steps[..|steps| - 1]), steps[|steps| - 1]);
    }
  }

  /** Over a run everyone holds what their groups bring throughout if and only if every step of it
      is one of those. */
  lemma RunExact(h: Hierarchy, w: World, steps: seq<Step>)
    requires WellFormed(h) && WellMade(h, w.brings) && Covered(w)
    ensures (forall k :: 0 <= k <= |steps| ==> Covered(Run(h, w, steps[..k]))) <==>
            forall k :: 0 <= k < |steps| ==> Harmless(h, Run(h, w, steps[..k]), steps[k])
  {
    hide Next, Covered, WellMade, Harmless, Run;
    if forall k :: 0 <= k < |steps| ==> Harmless(h, Run(h, w, steps[..k]), steps[k]) {
      forall k | 0 <= k <= |steps| ensures Covered(Run(h, w, steps[..k])) {
        HarmlessRun(h, w, steps, k);
      }
    } else {
      var k :| 0 <= k < |steps| && !Harmless(h, Run(h, w, steps[..k]), steps[k]);
      if Covered(Run(h, w, steps[..k])) {
        RunBrings(h, w, steps[..k]);
        StepExact(h, Run(h, w, steps[..k]), steps[k]);
        RunNext(h, w, steps, k);
        assert !Covered(Run(h, w, steps[..k + 1]));
      }
    }
  }

  lemma RunNext(h: Hierarchy, w: World, steps: seq<Step>, k: nat)
    requires k < |steps|
    ensures Run(h, w, steps[..k + 1]) == Next(h, Run(h, w, steps[..k]), steps[k])
  {
    assert steps[..k + 1][..k] == steps[..k];
  }

  /** So over every run of role changes that are signalled, in meetings with group roles switched
      on or off at any time, everyone keeps holding what their remaining groups bring. */
  lemma RunKeeps(h: Hierarchy, w: World, steps: seq<Step>)
    requires WellFormed(h) && WellMade(h, w.brings) && Covered(w)
    requires forall k :: 0 <= k < |steps| ==> !steps[k].Switch? && !steps[k].Take?
    ensures Covered(Run(h, w, steps))
  {
    hide Next, Covered, WellMade, Run;
    HarmlessRun(h, w, steps, |steps|);
    assert steps[..|steps|] == steps;
  }
}
