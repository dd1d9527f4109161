/** Roles that require other roles (voteit/core/models.py, voteit/core/role.py). */
module Roles {
  import opened Collections

  type Role = string

  /** The roles valid in a context, each with the roles it requires directly. */
  type Hierarchy = map<Role, set<Role>>

  // ------------------------------------------------------------- closed sets

  /** Requirements are between roles of the same context. */
  ghost predicate WellFormed(h: Hierarchy) {
    forall r :: r in h ==> h[r] <= h.Keys
  }

  /** No role requires itself, however indirectly: every role ranks above those it requires. */
  ghost predicate Ranked(h: Hierarchy, rank: map<Role, nat>) {
    && WellFormed(h)
    && rank.Keys == h.Keys
    && forall r, q :: r in h && q in h[r] ==> rank[q] < rank[r]
  }

  /** What a role requires already includes what those roles require. */
  ghost predicate Transitive(h: Hierarchy) {
    forall r, q :: r in h && q in h[r] && q in h ==> h[q] <= h[r]
  }

  /** A set of roles with everything they require. */
  ghost predicate Closed(h: Hierarchy, s: set<Role>) {
    s <= h.Keys && forall r :: r in s ==> h[r] <= s
  }

  /** The least closed set with these roles in it. */
  ghost function Closure(h: Hierarchy, roles: set<Role>): set<Role> {
    set r | r in h.Keys && forall s: set<Role> :: Closed(h, s) && roles <= s ==> r in s
  }

  lemma ClosureIsLeast(h: Hierarchy, roles: set<Role>)
    requires WellFormed(h) && roles <= h.Keys
    ensures Closed(h, Closure(h, roles)) && roles <= Closure(h, roles)
    ensures forall s: set<Role> :: Closed(h, s) && roles <= s ==> Closure(h, roles) <= s
  {
    forall r, q | r in Closure(h, roles) && q in h[r] ensures q in Closure(h, roles) {
      forall s: set<Role> | Closed(h, s) && roles <= s ensures q in s {
        assert r in s;
      }
    }
  }

  /** The one set that is closed, holds the roles and is part of every other such set. */
  lemma ClosureIs(h: Hierarchy, roles: set<Role>, s: set<Role>)
    requires WellFormed(h) && roles <= h.Keys
    requires Closed(h, s) && roles <= s && s <= Closure(h, roles)
    ensures s == Closure(h, roles)
  {
    ClosureIsLeast(h, roles);
  }

  // ------------------------------------------------------------- the two helpers

  /** Roles with everything they require, by recursion. */
  method GetRequiredRoles(h: Hierarchy, roles: set<Role>, ghost rank: map<Role, nat>, ghost bound: nat)
    returns (required: set<Role>)
    requires Ranked(h, rank) && roles <= h.Keys
    requires forall r :: r in roles ==> rank[r] < bound
    ensures required == Closure(h, roles)
    decreases bound
  {
    hide Closure;
    ClosureIsLeast(h, roles);
    required := {};
    var rest := roles;
    while rest != {}
      invariant rest <= roles <= rest + required
      invariant Closed(h, required) && required <= Closure(h, roles)
      decreases rest
    {
      var x := AnyOf(rest);
      rest := rest - {x};
      var above: set<Role> := {};
      if h[x] != {} {
        above := GetRequiredRoles(h, h[x], rank, rank[x]);
        RequiredIsBelow(h, roles, x);
        ClosureIsLeast(h, h[x]);
      }
      required := required + {x} + above;
    }
    ClosureIs(h, roles, required);
  }

  lemma RequiredIsBelow(h: Hierarchy, roles: set<Role>, x: Role)
    requires WellFormed(h) && roles <= h.Keys && x in roles
    ensures x in Closure(h, roles) && Closure(h, h[x]) <= Closure(h, roles)
  {
    ClosureIsLeast(h, roles);
    ClosureIsLeast(h, h[x]);
  }

  /** The roles themselves and those that require one of them directly. */
  function Dependent(h: Hierarchy, roles: set<Role>): set<Role> {
    set r <- h.Keys | r in roles || h[r] * roles != {}
  }

  method GetReverseRequiredRoles(h: Hierarchy, roles: set<Role>) returns (required: set<Role>)
    ensures required == Dependent(h, roles)
  {
    required := {};
    var rest := h.Keys;
    while rest != {}
      invariant rest <= h.Keys
      invariant required == set r <- h.Keys - rest | r in roles || h[r] * roles != {}
      decreases rest
    {
      var role := AnyOf(rest);
      if h[role] * roles != {} || role in roles {
        required := required + {role};
      }
      rest := rest - {role};
    }
    assert h.Keys - rest == h.Keys;
  }

  // ------------------------------------------------------ adding and removing

  /** Adding gives the least closed set with the old roles and the new. */
  lemma AddIsLeast(h: Hierarchy, held: set<Role>, roles: set<Role>)
    requires WellFormed(h) && Closed(h, held) && roles <= h.Keys
    ensures held + Closure(h, roles) == Closure(h, held + roles)
  {
    ClosureIsLeast(h, roles);
    ClosureIsLeast(h, held + roles);
    assert Closed(h, held + Closure(h, roles));
  }

  /** What is left by a removal is the greatest closed set without the removed roles, whenever it
      is closed at all. */
  lemma RemoveIsGreatest(h: Hierarchy, held: set<Role>, roles: set<Role>, s: set<Role>)
    requires Closed(h, s) && s <= held && s !! roles
    ensures s <= held - Dependent(h, roles)
  {
    forall r | r in s ensures r !in Dependent(h, roles) {
      assert h[r] <= s;
    }
  }

  /** Removing looks one level up only. That keeps every closed assignment closed, whatever is
      removed, exactly when the hierarchy is transitive. */
  lemma RemoveKeepsClosed(h: Hierarchy, rank: map<Role, nat>)
    requires Ranked(h, rank)
    ensures Transitive(h) <==>
            forall held: set<Role>, roles: set<Role> {:trigger Closed(h, held), Dependent(h, roles)} ::
              Closed(h, held) && roles <= h.Keys ==> Closed(h, held - Dependent(h, roles))
  {
    if Transitive(h) {
      forall held: set<Role>, roles: set<Role> | Closed(h, held) && roles <= h.Keys
        ensures Closed(h, held - Dependent(h, roles))
      {
        RestIsClosed(h, held, roles);
      }
    } else {
      var r, q :| r in h && q in h[r] && q in h && !(h[q] <= h[r]);
      var p :| p in h[q] && p !in h[r];
      assert Closed(h, h.Keys);
      var rest := h.Keys - Dependent(h, {p});
      assert h[q] * {p} == {p} && h[r] * {p} == {};
      assert r in rest && q in h[r] && q !in rest;
      assert !Closed(h, rest);
    }
  }

  /** An input: of three roles, each requiring the next only, removing the last leaves the first
      without the second. */
  lemma RemovalLeavesOpen()
    ensures var h: Hierarchy := map["a" := {"b"}, "b" := {"c"}, "c" := {}];
            && WellFormed(h) && Closed(h, {"a", "b", "c"})
            && {"a", "b", "c"} - Dependent(h, {"c"}) == {"a"}
            && !Closed(h, {"a"})
  {
    var h: Hierarchy := map["a" := {"b"}, "b" := {"c"}, "c" := {}];
    assert h["a"] * {"c"} == {} && h["b"] * {"c"} == {"c"};
    assert "b" in h["a"];
  }

  lemma RestIsClosed(h: Hierarchy, held: set<Role>, roles: set<Role>)
    requires WellFormed(h) && Transitive(h) && Closed(h, held)
    ensures Closed(h, held - Dependent(h, roles))
  {
    var rest := held - Dependent(h, roles);
    forall r, q | r in rest && q in h[r] ensures q in rest {
      assert q in held && q in h && h[q] <= h[r];
      assert h[r] * roles == {};
      assert forall p :: p in h[q] * roles ==> p in h[r] * roles;
      assert q !in h[r] * roles;
    }
  }

  // ------------------------------------------------------------- the rows

  type User = int

  /** One row per user with roles in the context. */
  type Rows = map<User, set<Role>>

  function HeldBy(rows: Rows, user: User): set<Role> {
    if user in rows then rows[user] else {}
  }

  ghost function WithRoles(h: Hierarchy, rows: Rows, user: User, roles: set<Role>): Rows {
    rows[user := HeldBy(rows, user) + Closure(h, roles)]
  }

  /** The row goes with the last role of it. */
  function WithoutRoles(h: Hierarchy, rows: Rows, user: User, roles: set<Role>): Rows {
    var rest := HeldBy(rows, user) - Dependent(h, roles);
    if rest == HeldBy(rows, user) then rows
    else if rest == {} then rows - {user}
    else rows[user := rest]
  }

  /** What a removal takes: the roles named and those that require one of them directly, and with the
      last role the row. Nobody else is touched. */
  lemma RemovalIsExact(h: Hierarchy, rows: Rows, user: User, roles: set<Role>)
    ensures var after := WithoutRoles(h, rows, user, roles);
            && (forall r :: r in HeldBy(after, user) <==>
                  r in HeldBy(rows, user) && !(r in h && (r in roles || exists q :: q in roles && q in h[r])))
            && (user in after <==> user in rows && (HeldBy(after, user) == {} ==> HeldBy(rows, user) == {}))
            && after - {user} == rows - {user}
  {
    var after := WithoutRoles(h, rows, user, roles);
    forall r | r in h ensures r in Dependent(h, roles) <==> r in roles || exists q :: q in roles && q in h[r] {
      if h[r] * roles != {} {
        var q := Choose(h[r] * roles);
        assert q in h[r] && q in roles;
      } else {
        assert forall q :: q in roles && q in h[r] ==> q in h[r] * roles;
      }
    }
    assert HeldBy(after, user) == HeldBy(rows, user) - Dependent(h, roles);
  }

  ghost predicate Consistent(h: Hierarchy, rows: Rows) {
    forall user :: user in rows ==> rows[user] != {} && Closed(h, rows[user])
  }

  /** One row of role assignments. */
  class UserRoles {
    const h: Hierarchy
    var held: set<Role>
    var deleted: bool

    constructor (h: Hierarchy, held: set<Role>)
      ensures this.h == h && this.held == held && !deleted
    {
      this.h, this.held, this.deleted := h, held, false;
    }

    /** Returns the roles that are new, if any. */
    method Add(roles: set<Role>, ghost rank: map<Role, nat>, ghost bound: nat) returns (added: Option<set<Role>>)
      requires Ranked(h, rank) && roles <= h.Keys
      requires forall r :: r in roles ==> rank[r] < bound
      modifies this
      ensures held == old(held) + Closure(h, roles) && deleted == old(deleted)
      ensures added == if Closure(h, roles) <= old(held) then None else Some(Closure(h, roles) - old(held))
    {
      var queryAdd := GetRequiredRoles(h, roles, rank, bound);
      var newRoles := queryAdd - held;
      if newRoles == {} {
        assert forall r :: r in queryAdd && r !in held ==> r in newRoles;
        return None;
      }
      held := held + newRoles;
      return Some(newRoles);
    }

    /** Returns the roles that were removed, if any; deletes the row with the last of them. */
    method Remove(roles: set<Role>) returns (removed: Option<set<Role>>)
      requires !deleted
      modifies this
      ensures held == old(held) - Dependent(h, roles)
      ensures removed == if held == old(held) then None else Some(old(held) - held)
      ensures deleted <==> held != old(held) && held == {}
    {
      var queryRemove := GetReverseRequiredRoles(h, roles);
      var removeRoles := held * queryRemove;
      if removeRoles == {} {
        assert forall r :: r in queryRemove && r in held ==> r in removeRoles;
        return None;
      }
      held := held - removeRoles;
      assert old(held) - held == removeRoles;
      if held == {} {
        deleted := true;
      }
      return Some(removeRoles);
    }
  }

  class RoleContext {
    const h: Hierarchy
    ghost const rank: map<Role, nat>
    var rows: Rows

    ghost predicate Valid()
      reads this
    {
      Ranked(h, rank)
    }

    constructor (h: Hierarchy, ghost rank: map<Role, nat>)
      requires Ranked(h, rank)
      ensures Valid() && this.h == h && rows == map[]
    {
      this.h, this.rank, rows := h, rank, map[];
    }

    method AddRoles(user: User, roles: set<Role>) returns (added: Option<set<Role>>)
      requires Valid() && roles <= h.Keys
      modifies this
      ensures Valid() && rows == WithRoles(h, old(rows), user, roles)
      ensures added.None? <==> Closure(h, roles) <= HeldBy(old(rows), user)
    {
      hide Closure;
      if user !in rows {
        rows := rows[user := {}];
      }
      var row := new UserRoles(h, rows[user]);
      ghost var bound := Above(rank, roles);
      added := row.Add(roles, rank, bound);
      rows := rows[user := row.held];
    }

    method RemoveRoles(user: User, roles: set<Role>) returns (removed: Option<set<Role>>)
      requires Valid()
      modifies this
      ensures Valid() && rows == WithoutRoles(h, old(rows), user, roles)
      ensures removed.None? <==> HeldBy(rows, user) == HeldBy(old(rows), user)
    {
      if user !in rows {
        return None;
      }
      var row := new UserRoles(h, rows[user]);
      removed := row.Remove(roles);
      if row.deleted {
        rows := rows - {user};
      } else {
        rows := rows[user := row.held];
      }
    }
  }

  ghost function Above(rank: map<Role, nat>, roles: set<Role>): (bound: nat)
    requires roles <= rank.Keys
    ensures forall r :: r in roles ==> rank[r] < bound
  {
    if roles == {} then 0 else
      var r := Choose(roles);
      var rest := Above(rank, roles - {r});
      if rest > rank[r] then rest else rank[r] + 1
  }

  // -------------------------------------------------------------- over runs

  datatype Change = Add(user: User, roles: set<Role>) | Remove(user: User, roles: set<Role>)

  ghost function Run(h: Hierarchy, rows: Rows, changes: seq<Change>): Rows {
    if changes == [] then rows else
      var before := Run(h, rows, changes[..|changes| - 1]);
      match changes[|changes| - 1]
      case Add(user, roles) => WithRoles(h, before, user, roles)
      case Remove(user, roles) => WithoutRoles(h, before, user, roles)
  }

  lemma AddKeeps(h: Hierarchy, rows: Rows, user: User, roles: set<Role>)
    requires WellFormed(h) && Consistent(h, rows) && roles <= h.Keys
    requires roles != {} || user in rows
    ensures Consistent(h, WithRoles(h, rows, user, roles))
    ensures HeldBy(WithRoles(h, rows, user, roles), user) == Closure(h, HeldBy(rows, user) + roles)
  {
    assert Closed(h, {});
    AddIsLeast(h, HeldBy(rows, user), roles);
    ClosureIsLeast(h, HeldBy(rows, user) + roles);
  }

  /** An addition leaves an empty row behind exactly when it names no role and creates the row. */
  lemma AddExact(h: Hierarchy, rows: Rows, user: User, roles: set<Role>)
    requires WellFormed(h) && Consistent(h, rows) && roles <= h.Keys
    ensures Consistent(h, WithRoles(h, rows, user, roles)) <==> roles != {} || user in rows
  {
    if roles != {} || user in rows {
      AddKeeps(h, rows, user, roles);
    } else {
      assert Closed(h, {});
      ClosureIsLeast(h, {});
      assert user in WithRoles(h, rows, user, {});
    }
  }

  lemma RemoveKeeps(h: Hierarchy, rows: Rows, user: User, roles: set<Role>)
    requires WellFormed(h) && Transitive(h) && Consistent(h, rows)
    ensures Consistent(h, WithoutRoles(h, rows, user, roles))
  {
    if user in rows {
      RestIsClosed(h, rows[user], roles);
    }
  }

  /** Every addition of the run names a role or is for a user who has a row by then. */
  ghost predicate NoneEmpty(h: Hierarchy, rows: Rows, changes: seq<Change>) {
    forall k :: 0 <= k < |changes| && changes[k].Add? ==>
      changes[k].roles != {} || changes[k].user in Run(h, rows, changes[..k])
  }

  lemma RunNext(h: Hierarchy, rows: Rows, changes: seq<Change>, k: nat)
    requires k < |changes|
    ensures Run(h, rows, changes[..k + 1]) ==
            match changes[k]
            case Add(user, roles) => WithRoles(h, Run(h, rows, changes[..k]), user, roles)
            case Remove(user, roles) => WithoutRoles(h, Run(h, rows, changes[..k]), user, roles)
  {
    assert changes[..k + 1][..k] == changes[..k];
  }

  lemma {:induction false} RunKeeps(h: Hierarchy, rows: Rows, changes: seq<Change>, k: nat)
    requires WellFormed(h) && Transitive(h) && Consistent(h, rows) && k <= |changes|
    requires forall j :: 0 <= j < |changes| && changes[j].Add? ==> changes[j].roles <= h.Keys
    requires NoneEmpty(h, rows, changes)
    ensures Consistent(h, Run(h, rows, changes[..k]))
  {
    hide Consistent, WithRoles, WithoutRoles, Transitive, WellFormed;
    if k > 0 {
      RunKeeps(h, rows, changes, k - 1);
      RunNext(h, rows, changes, k - 1);
      match changes[k - 1]
      case Add(user, roles) => AddKeeps(h, Run(h, rows, changes[..k - 1]), user, roles);
      case Remove(user, roles) => RemoveKeeps(h, Run(h, rows, changes[..k - 1]), user, roles);
    }
  }

  /** Over a run of additions and removals under a transitive hierarchy, every assignment stays
      closed under requirements throughout, and a user has a row exactly while there are roles
      in it, if and only if no addition creates a row without naming a role. */
  lemma RunExact(h: Hierarchy, rows: Rows, changes: seq<Change>)
    requires WellFormed(h) && Transitive(h) && Consistent(h, rows)
    requires forall j :: 0 <= j < |changes| && changes[j].Add? ==> changes[j].roles <= h.Keys
    ensures NoneEmpty(h, rows, changes) <==>
            forall k :: 0 <= k <= |changes| ==> Consistent(h, Run(h, rows, changes[..k]))
  {
    hide Consistent, WithRoles, Transitive, WellFormed, Run;
    if NoneEmpty(h, rows, changes) {
      forall k | 0 <= k <= |changes| ensures Consistent(h, Run(h, rows, changes[..k])) {
        RunKeeps(h, rows, changes, k);
      }
    } else {
      var k :| 0 <= k < |changes| && changes[k].Add? &&
        changes[k].roles == {} && changes[k].user !in Run(h, rows, changes[..k]);
      if Consistent(h, Run(h, rows, changes[..k])) {
        RunNext(h, rows, changes, k);
        AddExact(h, Run(h, rows, changes[..k]), changes[k].user, changes[k].roles);
      }
    }
  }
}
