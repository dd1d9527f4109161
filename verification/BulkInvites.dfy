/** Writing many invites at once (voteit/invites/models.py). */
module BulkInvites {
  import opened Collections

  datatype Result<+T> = Ok(value: T) | PartialInvitesFound

  // ------------------------------------------------------------- data model

  /** What identifies the recipient: one value per type of user data. */
  type UserData = map<string, string>

  type Role = string

  datatype InviteState = Open | Accepted | Rejected | Revoked | Expired

  datatype Invite = Invite(pk: nat, userData: UserData, roles: set<Role>, state: InviteState, usedBy: Option<int>)

  datatype InviteResult = InviteResult(pks: set<nat>, added: nat, changed: nat, existed: nat)

  // ------------------------------------------------------------- what is asked for

  predicate Subset(item: UserData, other: UserData) {
    forall k <- item.Keys :: k in other && other[k] == item[k]
  }

  /** Whether the invite has everything some item has. */
  predicate Matches(invite: Invite, data: seq<UserData>) {
    exists item <- data :: Subset(item, invite.userData)
  }

  predicate Uses(data: seq<UserData>, k: string, v: string) {
    exists item <- data :: k in item && item[k] == v
  }

  /** The types of user data in use. */
  function Types(data: seq<UserData>): set<string> {
    set item, k | item in data && k in item.Keys :: k
  }

  /** An invite that has a value of some item without having all of any item. Looked for only when
      there are several types of user data, and only for those that are registered. */
  predicate Partial(invite: Invite, data: seq<UserData>, known: set<string>) {
    && |Types(data)| > 1
    && !Matches(invite, data)
    && exists k <- invite.userData.Keys :: k in known && Uses(data, k, invite.userData[k])
  }

  predicate Settled(s: InviteState) {
    s == Open || s == Accepted
  }

  // --------------------------------------------------------- the update, stated

  function Updated(invite: Invite, data: seq<UserData>, roles: set<Role>): Invite {
    if Matches(invite, data)
    then invite.(roles := roles, state := if Settled(invite.state) then invite.state else Open)
    else invite
  }

  function AllUpdated(invites: seq<Invite>, data: seq<UserData>, roles: set<Role>): seq<Invite> {
    seq(|invites|, i requires 0 <= i < |invites| => Updated(invites[i], data, roles))
  }

  predicate Handled(item: UserData, invites: seq<Invite>) {
    exists x <- invites :: Subset(item, x.userData)
  }

  /** The items no invite covers yet, each once. */
  function ToAdd(data: seq<UserData>, invites: seq<Invite>): seq<UserData> {
    if data == [] then [] else
      var before, item := ToAdd(data[..|data| - 1], invites), data[|data| - 1];
      if Handled(item, invites) || item in before then before else before + [item]
  }

  function Created(items: seq<UserData>, roles: set<Role>, nextPk: nat): seq<Invite> {
    seq(|items|, i requires 0 <= i < |items| => Invite(nextPk + i, items[i], roles, Open, None))
  }

  function After(invites: seq<Invite>, nextPk: nat, data: seq<UserData>, roles: set<Role>): seq<Invite> {
    AllUpdated(invites, data, roles) + Created(ToAdd(data, invites), roles, nextPk)
  }

  function CountMatching(invites: seq<Invite>, data: seq<UserData>): nat {
    if invites == [] then 0 else
      CountMatching(invites[..|invites| - 1], data) + if Matches(invites[|invites| - 1], data) then 1 else 0
  }

  function CountChanged(invites: seq<Invite>, data: seq<UserData>, roles: set<Role>): (n: nat)
    ensures n <= CountMatching(invites, data)
  {
    if invites == [] then 0 else
      CountChanged(invites[..|invites| - 1], data, roles) +
      if Matches(invites[|invites| - 1], data) && invites[|invites| - 1].roles != roles then 1 else 0
  }

  function Pks(invites: seq<Invite>): set<nat> {
    set x <- invites :: x.pk
  }

  function MatchingPks(invites: seq<Invite>, data: seq<UserData>): set<nat> {
    set x <- invites | Matches(x, data) :: x.pk
  }

  function Reported(invites: seq<Invite>, nextPk: nat, data: seq<UserData>, roles: set<Role>): InviteResult {
    var changed := CountChanged(invites, data, roles);
    var added := Created(ToAdd(data, invites), roles, nextPk);
    InviteResult(MatchingPks(invites, data) + Pks(added), |added|, changed, CountMatching(invites, data) - changed)
  }

  /** The roles an invite is asked to have, without those the meeting's dialect blocks. */
  function Allowed(roles: set<Role>, ignore: set<Role>): set<Role> {
    roles - ignore
  }

  /** One row per invite and per user data. */
  ghost predicate Valid(invites: seq<Invite>, nextPk: nat) {
    && (forall i :: 0 <= i < |invites| ==> invites[i].pk < nextPk)
    && (forall i, j :: 0 <= i < j < |invites| ==>
          invites[i].pk != invites[j].pk && invites[i].userData != invites[j].userData)
  }

  // ------------------------------------------------------------- what it gives

  lemma {:induction false} ToAddIsExact(data: seq<UserData>, invites: seq<Invite>)
    ensures forall item: UserData :: item in ToAdd(data, invites) <==> item in data && !Handled(item, invites)
    ensures forall i, j :: 0 <= i < j < |ToAdd(data, invites)| ==> ToAdd(data, invites)[i] != ToAdd(data, invites)[j]
  {
    hide Handled;
    if data != [] {
      ToAddIsExact(data[..|data| - 1], invites);
      assert data == data[..|data| - 1] + [data[|data| - 1]];
    }
  }

  /** Afterwards every item is part of some invite that has the roles and is open or accepted. */
  lemma EveryItemIsInvited(invites: seq<Invite>, nextPk: nat, data: seq<UserData>, roles: set<Role>, item: UserData)
    requires item in data
    ensures exists x <- After(invites, nextPk, data, roles) ::
              Subset(item, x.userData) && x.roles == roles && Settled(x.state)
  {
    hide ToAdd;
    ToAddIsExact(data, invites);
    var after, add := After(invites, nextPk, data, roles), ToAdd(data, invites);
    if item in add {
      var i :| 0 <= i < |add| && add[i] == item;
      assert after[|invites| + i] == Created(add, roles, nextPk)[i];
      assert Subset(item, after[|invites| + i].userData);
    } else {
      var x :| x in invites && Subset(item, x.userData);
      var i :| 0 <= i < |invites| && invites[i] == x;
      assert Matches(x, data);
      assert after[i] == Updated(x, data, roles);
    }
  }

  /** What becomes of an invite: nothing if no item asks for it; otherwise it has the roles, and is
      open unless it is accepted, and is still the same recipient's. */
  predicate AsWritten(x: Invite, y: Invite, data: seq<UserData>, roles: set<Role>) {
    && ((forall item <- data :: !Subset(item, x.userData)) ==> y == x)
    && ((exists item <- data :: Subset(item, x.userData)) ==>
          && y.pk == x.pk && y.userData == x.userData && y.usedBy == x.usedBy
          && y.roles == roles
          && y.state == if x.state == Accepted then Accepted else Open)
  }

  /** A new invite is for an item none of the invites covers, open, with the roles. */
  predicate AsNew(y: Invite, pk: nat, invites: seq<Invite>, data: seq<UserData>, roles: set<Role>) {
    && y == Invite(pk, y.userData, roles, Open, None)
    && y.userData in data
    && forall x <- invites :: !Subset(y.userData, x.userData)
  }

  predicate Written(before: seq<Invite>, after: seq<Invite>, nextPk: nat, data: seq<UserData>, roles: set<Role>) {
    && |before| <= |after|
    && (forall i :: 0 <= i < |before| ==> AsWritten(before[i], after[i], data, roles))
    && (forall i :: |before| <= i < |after| ==>
          AsNew(after[i], nextPk + (i - |before|), before, data, roles))
  }

  lemma UpdatedIsWritten(x: Invite, data: seq<UserData>, roles: set<Role>)
    ensures AsWritten(x, Updated(x, data, roles), data, roles)
  {
    hide Subset;
  }

  /** A call writes that and nothing else. */
  lemma WritesExactly(invites: seq<Invite>, nextPk: nat, data: seq<UserData>, roles: set<Role>)
    ensures Written(invites, After(invites, nextPk, data, roles), nextPk, data, roles)
  {
    hide ToAdd, Subset;
    ToAddIsExact(data, invites);
    var after, add := After(invites, nextPk, data, roles), ToAdd(data, invites);
    forall i | 0 <= i < |invites| ensures AsWritten(invites[i], after[i], data, roles) {
      UpdatedIsWritten(invites[i], data, roles);
    }
    forall i | |invites| <= i < |after| ensures AsNew(after[i], nextPk + (i - |invites|), invites, data, roles) {
      assert after[i] == Created(add, roles, nextPk)[i - |invites|];
      assert add[i - |invites|] in add;
    }
  }

  lemma TwoOf<T>(s: set<T>)
    ensures |s| > 1 <==> exists k, l :: k != l && k in s && l in s
  {
    if |s| > 1 {
      var k := Choose(s);
      assert |s - {k}| == |s| - 1;
      var l := Choose(s - {k});
      assert k != l && k in s && l in s;
    }
    if k, l :| k != l && k in s && l in s {
      assert {k, l} <= s;
      assert |s| == |s - {k, l}| + |{k, l}|;
    }
  }

  lemma TypesAreUsed(data: seq<UserData>)
    ensures forall k :: k in Types(data) <==> exists item <- data :: k in item
  {
    forall k ensures k in Types(data) <==> exists item <- data :: k in item {
      if item :| item in data && k in item {
        assert k in item.Keys;
      }
    }
  }

  /** An invite is partial exactly when two types of user data are in use, it has all of no item, and
      it has a value of a registered type that some item has. */
  lemma PartialMeans(invite: Invite, data: seq<UserData>, known: set<string>)
    ensures Partial(invite, data, known) <==>
            && (exists k, l :: k != l && k in Types(data) && l in Types(data))
            && (forall item <- data :: !Subset(item, invite.userData))
            && (exists k <- invite.userData.Keys :: k in known && Uses(data, k, invite.userData[k]))
    ensures forall k :: k in Types(data) <==> exists item <- data :: k in item
  {
    hide Subset, Uses, Types;
    TwoOf(Types(data));
    TypesAreUsed(data);
  }

  /** No two invites get equal user data, nor equal keys. */
  lemma StaysValid(invites: seq<Invite>, nextPk: nat, data: seq<UserData>, roles: set<Role>)
    requires Valid(invites, nextPk)
    ensures Valid(After(invites, nextPk, data, roles), nextPk + |ToAdd(data, invites)|)
  {
    hide ToAdd, Matches, Subset;
    ToAddIsExact(data, invites);
    var after, add := After(invites, nextPk, data, roles), ToAdd(data, invites);
    forall i, j | 0 <= i < j < |after| ensures after[i].pk != after[j].pk && after[i].userData != after[j].userData {
      if i < |invites| {
        assert after[i] == Updated(invites[i], data, roles);
        if j < |invites| {
          assert after[j] == Updated(invites[j], data, roles);
        } else {
          assert add[j - |invites|] in add;
          NewIsNew(invites, i, add[j - |invites|]);
        }
      }
    }
  }

  lemma NewIsNew(invites: seq<Invite>, i: nat, item: UserData)
    requires i < |invites| && !Handled(item, invites)
    ensures invites[i].userData != item
  {
    assert invites[i] in invites && Subset(invites[i].userData, invites[i].userData);
  }

  lemma MatchingSnoc(invites: seq<Invite>, x: Invite, data: seq<UserData>)
    ensures MatchingPks(invites + [x], data) == MatchingPks(invites, data) + if Matches(x, data) then {x.pk} else {}
    ensures CountMatching(invites + [x], data) == CountMatching(invites, data) + if Matches(x, data) then 1 else 0
  {
    hide Matches;
    assert (invites + [x])[..|invites|] == invites;
    assert x in invites + [x] && forall y <- invites :: y in invites + [x];
  }

  lemma {:induction false} MatchingCount(invites: seq<Invite>, data: seq<UserData>, nextPk: nat)
    requires Valid(invites, nextPk)
    ensures |MatchingPks(invites, data)| == CountMatching(invites, data)
  {
    hide Matches, CountMatching;
    if invites == [] {
      NoneMatch(data);
    } else {
      var init, last := invites[..|invites| - 1], invites[|invites| - 1];
      assert invites == init + [last];
      MatchingCount(init, data, nextPk);
      MatchingSnoc(init, last, data);
      assert last.pk !in MatchingPks(init, data);
    }
  }

  lemma NoneMatch(data: seq<UserData>)
    ensures MatchingPks([], data) == {} && CountMatching([], data) == 0
  {
  }

  lemma {:induction false} PksOfCreated(items: seq<UserData>, roles: set<Role>, nextPk: nat)
    ensures forall pk <- Pks(Created(items, roles, nextPk)) :: nextPk <= pk < nextPk + |items|
    ensures |Pks(Created(items, roles, nextPk))| == |items|
  {
    var created := Created(items, roles, nextPk);
    if items != [] {
      var init := items[..|items| - 1];
      PksOfCreated(init, roles, nextPk);
      assert created == Created(init, roles, nextPk) + [created[|items| - 1]];
      assert Pks(created) == Pks(Created(init, roles, nextPk)) + {nextPk + |items| - 1};
    }
  }

  /** The report adds up: everything it names was added, changed, or there already. */
  lemma ReportAddsUp(invites: seq<Invite>, nextPk: nat, data: seq<UserData>, roles: set<Role>)
    requires Valid(invites, nextPk)
    ensures var r := Reported(invites, nextPk, data, roles);
            r.added + r.changed + r.existed == |r.pks|
  {
    hide Matches, ToAdd;
    var add := ToAdd(data, invites);
    MatchingCount(invites, data, nextPk);
    PksOfCreated(add, roles, nextPk);
    assert MatchingPks(invites, data) !! Pks(Created(add, roles, nextPk));
  }

  /** Where in the list the invites are that an item asks for and that have, or have not, the roles. */
  ghost function AskedFor(invites: seq<Invite>, data: seq<UserData>, roles: set<Role>, same: bool): set<int> {
    set i | 0 <= i < |invites| && (invites[i].roles == roles) == same &&
            exists item <- data :: Subset(item, invites[i].userData)
  }

  lemma AskedForSnoc(invites: seq<Invite>, x: Invite, data: seq<UserData>, roles: set<Role>, same: bool)
    ensures AskedFor(invites + [x], data, roles, same) ==
            if Matches(x, data) && (x.roles == roles) == same then AskedFor(invites, data, roles, same) + {|invites|}
            else AskedFor(invites, data, roles, same)
  {
    hide Subset;
  }

  lemma {:induction false} CountsAre(invites: seq<Invite>, data: seq<UserData>, roles: set<Role>)
    ensures CountChanged(invites, data, roles) == |AskedFor(invites, data, roles, false)|
    ensures CountMatching(invites, data) ==
            |AskedFor(invites, data, roles, false)| + |AskedFor(invites, data, roles, true)|
  {
    hide Matches, AskedFor;
    if invites == [] {
      NoneAskedFor(invites, data, roles);
    } else {
      var init, x := invites[..|invites| - 1], invites[|invites| - 1];
      assert invites == init + [x];
      CountsAre(init, data, roles);
      AskedForSnoc(init, x, data, roles, false);
      AskedForSnoc(init, x, data, roles, true);
      InitAskedFor(init, data, roles);
    }
  }

  lemma NoneAskedFor(invites: seq<Invite>, data: seq<UserData>, roles: set<Role>)
    requires invites == []
    ensures AskedFor(invites, data, roles, false) == {} == AskedFor(invites, data, roles, true)
  {
  }

  lemma InitAskedFor(invites: seq<Invite>, data: seq<UserData>, roles: set<Role>)
    ensures |invites| !in AskedFor(invites, data, roles, false) + AskedFor(invites, data, roles, true)
  {
  }

  /** The report says how many invites were asked for and had other roles, how many had them already,
      and how many are new. */
  lemma ReportIsExact(invites: seq<Invite>, nextPk: nat, data: seq<UserData>, roles: set<Role>)
    ensures var r, after := Reported(invites, nextPk, data, roles), After(invites, nextPk, data, roles);
            && r.changed == |AskedFor(invites, data, roles, false)|
            && r.existed == |AskedFor(invites, data, roles, true)|
            && r.added == |after| - |invites|
            && forall pk: nat :: pk in r.pks <==>
                 || (exists x <- invites :: x.pk == pk && exists item <- data :: Subset(item, x.userData))
                 || nextPk <= pk < nextPk + r.added
  {
    hide ToAdd, Subset, AskedFor, CountChanged, CountMatching;
    CountsAre(invites, data, roles);
    var add := ToAdd(data, invites);
    var created := Created(add, roles, nextPk);
    forall pk: nat ensures pk in Pks(created) <==> nextPk <= pk < nextPk + |add| {
      if nextPk <= pk < nextPk + |add| {
        assert created[pk - nextPk] in created;
      }
    }
  }

  lemma {:induction false} NoneChanged(invites: seq<Invite>, data: seq<UserData>, roles: set<Role>)
    requires forall i :: 0 <= i < |invites| && Matches(invites[i], data) ==> invites[i].roles == roles
    ensures CountChanged(invites, data, roles) == 0
  {
    if invites != [] {
      NoneChanged(invites[..|invites| - 1], data, roles);
    }
  }

  lemma {:induction false} NothingToAdd(data: seq<UserData>, invites: seq<Invite>)
    requires forall item <- data :: Handled(item, invites)
    ensures ToAdd(data, invites) == []
  {
    if data != [] {
      NothingToAdd(data[..|data| - 1], invites);
    }
  }

  lemma ItemIsHandled(item: UserData, invites: seq<Invite>)
    requires exists x <- invites :: Subset(item, x.userData)
    ensures Handled(item, invites)
  {
  }

  /** An invite that was written is not written again, and none becomes partial. */
  lemma AfterIsStable(invites: seq<Invite>, nextPk: nat, data: seq<UserData>, roles: set<Role>,
                      known: set<string>, i: nat)
    requires i < |After(invites, nextPk, data, roles)|
    requires i < |invites| ==> !Partial(invites[i], data, known)
    ensures var x := After(invites, nextPk, data, roles)[i];
            && Updated(x, data, roles) == x
            && !Partial(x, data, known)
            && (Matches(x, data) <==> i >= |invites| || Matches(invites[i], data))
            && (Matches(x, data) ==> x.roles == roles)
  {
    hide ToAdd;
    var add, x := ToAdd(data, invites), After(invites, nextPk, data, roles)[i];
    if i < |invites| {
      assert x == Updated(invites[i], data, roles);
      assert x.userData == invites[i].userData;
      assert Matches(x, data) <==> Matches(invites[i], data);
    } else {
      ToAddIsExact(data, invites);
      assert x == Created(add, roles, nextPk)[i - |invites|];
      assert x.userData in add;
      assert x.userData in data && Subset(x.userData, x.userData);
    }
  }

  /** A second call with the same input finds everything in place: nobody is written, nothing is
      reported as added or changed, and the same invites are named. */
  lemma SecondCallChangesNothing(invites: seq<Invite>, nextPk: nat, data: seq<UserData>, roles: set<Role>,
                                 known: set<string>)
    requires Valid(invites, nextPk)
    requires forall i :: 0 <= i < |invites| ==> !Partial(invites[i], data, known)
    ensures var after, next := After(invites, nextPk, data, roles), nextPk + |ToAdd(data, invites)|;
            var first, second := Reported(invites, nextPk, data, roles), Reported(after, next, data, roles);
            && (forall i :: 0 <= i < |after| ==> !Partial(after[i], data, known))
            && After(after, next, data, roles) == after
            && second == InviteResult(first.pks, 0, 0, |first.pks|)
  {
    hide ToAdd, Matches, Handled, Partial, CountChanged, CountMatching, MatchingPks, Pks, Updated;
    var after, next, add := After(invites, nextPk, data, roles), nextPk + |ToAdd(data, invites)|, ToAdd(data, invites);
    forall i | 0 <= i < |after| ensures Updated(after[i], data, roles) == after[i] && !Partial(after[i], data, known)
      ensures Matches(after[i], data) <==> i >= |invites| || Matches(invites[i], data)
      ensures Matches(after[i], data) ==> after[i].roles == roles
    {
      AfterIsStable(invites, nextPk, data, roles, known, i);
    }
    forall item <- data ensures Handled(item, after) {
      EveryItemIsInvited(invites, nextPk, data, roles, item);
      ItemIsHandled(item, after);
    }
    NothingToAdd(data, after);
    NoneChanged(after, data, roles);
    assert AllUpdated(after, data, roles) == after;
    assert Created([], roles, next) == [];
    NamedAgain(invites, after, Created(add, roles, nextPk), data, roles);
    NoPks();
    StaysValid(invites, nextPk, data, roles);
    ReportAddsUp(after, next, data, roles);
  }

  lemma NoPks()
    ensures Pks([]) == {}
  {
  }

  lemma NamedAgain(invites: seq<Invite>, after: seq<Invite>, created: seq<Invite>, data: seq<UserData>,
                   roles: set<Role>)
    requires after == AllUpdated(invites, data, roles) + created
    requires forall i :: 0 <= i < |after| ==> (Matches(after[i], data) <==> i >= |invites| || Matches(invites[i], data))
    ensures MatchingPks(after, data) == MatchingPks(invites, data) + Pks(created)
  {
    hide Matches;
    forall pk | pk in MatchingPks(after, data) ensures pk in MatchingPks(invites, data) + Pks(created) {
      var x :| x in after && Matches(x, data) && x.pk == pk;
      var i :| 0 <= i < |after| && after[i] == x;
      if i < |invites| {
        assert invites[i] in invites && invites[i].pk == pk;
      } else {
        assert created[i - |invites|] in created;
      }
    }
    forall pk | pk in MatchingPks(invites, data) ensures pk in MatchingPks(after, data) {
      var x :| x in invites && Matches(x, data) && x.pk == pk;
      var i :| 0 <= i < |invites| && invites[i] == x;
      assert after[i] in after && after[i].pk == pk;
    }
    forall pk | pk in Pks(created) ensures pk in MatchingPks(after, data) {
      var x :| x in created && x.pk == pk;
      var i :| 0 <= i < |created| && created[i] == x;
      assert after[|invites| + i] in after;
    }
  }

  // ---------------------------------------------------------------- the manager

  /** The invites whose roles changed and that somebody used, as they are after the change: their
      users' roles are brought in line. */
  function ToSync(invites: seq<Invite>, data: seq<UserData>, roles: set<Role>): seq<Invite> {
    if invites == [] then [] else
      var before, x := ToSync(invites[..|invites| - 1], data, roles), invites[|invites| - 1];
      if Changes(x, data, roles) && x.usedBy.Some? then before + [Updated(x, data, roles)] else before
  }

  /** All of them have the roles asked for, and they are used by those who used an invite that is
      given other roles. */
  lemma {:induction false} ToSyncIsExact(invites: seq<Invite>, data: seq<UserData>, roles: set<Role>)
    ensures forall y <- ToSync(invites, data, roles) :: y.roles == roles
    ensures forall user: int :: (exists y <- ToSync(invites, data, roles) :: y.usedBy == Some(user)) <==>
              exists x <- invites :: Changes(x, data, roles) && x.usedBy == Some(user)
  {
    hide Matches;
    if invites != [] {
      var init, x := invites[..|invites| - 1], invites[|invites| - 1];
      assert invites == init + [x];
      ToSyncIsExact(init, data, roles);
      var before := ToSync(init, data, roles);
      if Changes(x, data, roles) && x.usedBy.Some? {
        var y := Updated(x, data, roles);
        assert ToSync(invites, data, roles) == before + [y];
        assert forall z <- before + [y] :: z in before || z == y;
        assert y in before + [y] && forall z <- before :: z in before + [y];
      }
      assert x in invites && forall z <- init :: z in invites;
    }
  }

  /** Whether the call gives the invite other roles. */
  predicate Changes(x: Invite, data: seq<UserData>, roles: set<Role>) {
    Matches(x, data) && x.roles != roles
  }

  /** That asks who used an invite and not whether it is accepted. Only those who accepted theirs
      are brought in line exactly when no used invite is given other roles in another state. */
  lemma {:induction false} SyncedHaveAccepted(invites: seq<Invite>, data: seq<UserData>, roles: set<Role>)
    ensures (forall y <- ToSync(invites, data, roles) :: y.state == Accepted) <==>
            forall x <- invites :: !(Changes(x, data, roles) && x.usedBy.Some? && x.state != Accepted)
  {
    hide Matches;
    if invites != [] {
      var init, x := invites[..|invites| - 1], invites[|invites| - 1];
      assert invites == init + [x];
      SyncedHaveAccepted(init, data, roles);
      var before := ToSync(init, data, roles);
      if Changes(x, data, roles) && x.usedBy.Some? {
        var y := Updated(x, data, roles);
        assert ToSync(invites, data, roles) == before + [y];
        assert forall z <- before + [y] :: z in before || z == y;
        assert y in before + [y] && forall z <- before :: z in before + [y];
      }
      assert x in invites && forall z <- init :: z in invites;
    }
  }

  /** An input: an invite its user rejected, or rejected before it was opened again. */
  lemma RejectedIsSynced(x: Invite, roles: set<Role>, user: int)
    requires (x.state == Rejected || x.state == Open) && x.usedBy == Some(user) && x.roles != roles
    ensures ToSync([x], [x.userData], roles) == [x.(roles := roles, state := Open)]
  {
    assert [x][..0] == [];
    assert x.userData in [x.userData] && Subset(x.userData, x.userData);
    assert Matches(x, [x.userData]);
  }

  class MeetingInvites {
    var invites: seq<Invite>
    var nextPk: nat

    constructor ()
      ensures invites == [] && Valid(invites, nextPk)
    {
      invites, nextPk := [], 0;
    }

    method AnyPartial(data: seq<UserData>, known: set<string>) returns (found: bool)
      ensures found <==> exists i :: 0 <= i < |invites| && Partial(invites[i], data, known)
    {
      for i := 0 to |invites|
        invariant forall j :: 0 <= j < i ==> !Partial(invites[j], data, known)
      {
        if Partial(invites[i], data, known) {
          return true;
        }
      }
      return false;
    }

    /** Gives matching invites the roles, reopening those that are neither open nor accepted. */
    method UpdateRoles(data: seq<UserData>, roles: set<Role>) returns (changed: nat, toSync: seq<Invite>)
      modifies this`invites
      ensures |invites| == |old(invites)|
      ensures forall i :: 0 <= i < |invites| ==>
                invites[i] == if old(invites)[i].roles != roles then Updated(old(invites)[i], data, roles)
                              else old(invites)[i]
      ensures forall i :: 0 <= i < |invites| && (forall item <- data :: !Subset(item, old(invites)[i].userData)) ==>
                invites[i] == old(invites)[i]
      ensures forall i :: 0 <= i < |invites| && old(invites)[i].roles == roles ==> invites[i] == old(invites)[i]
      ensures forall i :: 0 <= i < |invites| && old(invites)[i].roles != roles ==>
                AsWritten(old(invites)[i], invites[i], data, roles)
      ensures changed == CountChanged(old(invites), data, roles) && toSync == ToSync(old(invites), data, roles)
    {
      hide Matches;
      changed, toSync := 0, [];
      for i := 0 to |invites|
        invariant |invites| == |old(invites)|
        invariant forall j :: 0 <= j < i ==>
          invites[j] == if old(invites)[j].roles != roles then Updated(old(invites)[j], data, roles)
                        else old(invites)[j]
        invariant forall j :: i <= j < |invites| ==> invites[j] == old(invites)[j]
        invariant changed == CountChanged(old(invites)[..i], data, roles)
        invariant toSync == ToSync(old(invites)[..i], data, roles)
      {
        var x := invites[i];
        assert old(invites)[..i + 1][..i] == old(invites)[..i];
        if Matches(x, data) && x.roles != roles {
          x := x.(roles := roles, state := if Settled(x.state) then x.state else Open);
          invites := invites[i := x];
          changed := changed + 1;
          if x.usedBy.Some? {
            toSync := toSync + [x];
          }
        }
      }
      assert old(invites)[..|invites|] == old(invites);
      forall i | 0 <= i < |invites| && old(invites)[i].roles != roles
        ensures AsWritten(old(invites)[i], invites[i], data, roles)
      {
        UpdatedIsWritten(old(invites)[i], data, roles);
      }
      forall i | 0 <= i < |invites| && (forall item <- data :: !Subset(item, old(invites)[i].userData))
        ensures invites[i] == old(invites)[i]
      {
        UpdatedIsWritten(old(invites)[i], data, roles);
      }
    }

    /** Reopens the matching invites that had the roles already. */
    method Reopen(data: seq<UserData>)
      modifies this`invites
      ensures |invites| == |old(invites)|
      ensures forall i :: 0 <= i < |invites| ==>
                invites[i] == if Matches(old(invites)[i], data) && !Settled(old(invites)[i].state)
                              then old(invites)[i].(state := Open) else old(invites)[i]
    {
      hide Matches;
      for i := 0 to |invites|
        invariant |invites| == |old(invites)|
        invariant forall j :: 0 <= j < i ==>
          invites[j] == if Matches(old(invites)[j], data) && !Settled(old(invites)[j].state)
                        then old(invites)[j].(state := Open) else old(invites)[j]
        invariant forall j :: i <= j < |invites| ==> invites[j] == old(invites)[j]
      {
        if Matches(invites[i], data) && !Settled(invites[i].state) {
          invites := invites[i := invites[i].(state := Open)];
        }
      }
    }

    method FindToAdd(data: seq<UserData>) returns (add: seq<UserData>)
      ensures add == ToAdd(data, invites)
    {
      hide Handled;
      add := [];
      for i := 0 to |data|
        invariant add == ToAdd(data[..i], invites)
      {
        assert data[..i + 1][..i] == data[..i];
        if !Handled(data[i], invites) && data[i] !in add {
          add := add + [data[i]];
        }
      }
      assert data[..|data|] == data;
    }

    /** Fails, and writes nothing, exactly when an invite has part of what is asked for. */
    method CreateOrUpdateMixed(data: seq<UserData>, roles: set<Role>, ignore: set<Role>, known: set<string>)
      returns (r: Result<InviteResult>, toSync: seq<Invite>)
      requires Valid(invites, nextPk)
      modifies this
      ensures Valid(invites, nextPk)
      ensures r.PartialInvitesFound? <==>
                exists i :: 0 <= i < |old(invites)| && Partial(old(invites)[i], data, known)
      ensures r.PartialInvitesFound? ==> invites == old(invites) && nextPk == old(nextPk) && toSync == []
      ensures r.Ok? ==>
                && invites == After(old(invites), old(nextPk), data, Allowed(roles, ignore))
                && r.value == Reported(old(invites), old(nextPk), data, Allowed(roles, ignore))
                && toSync == ToSync(old(invites), data, Allowed(roles, ignore))
                && Written(old(invites), invites, old(nextPk), data, roles - ignore)
    {
      hide Matches, Partial, ToAdd, Handled, CountChanged, CountMatching, ToSync, Written, AsWritten;
      var partial := AnyPartial(data, known);
      if partial {
        return PartialInvitesFound, [];
      }
      var allowed := roles - ignore;
      var pks, total := MatchingPks(invites, data), CountMatching(invites, data);
      var changed;
      changed, toSync := UpdateRoles(data, allowed);
      label Written:
      SameMatches(old(invites), invites, data, allowed);
      Reopen(data);
      SameMatches(old@Written(invites), invites, data, allowed);
      assert invites == AllUpdated(old(invites), data, allowed);
      var add := FindToAdd(data);
      SameHandled(old(invites), data, allowed);
      StaysValid(old(invites), old(nextPk), data, allowed);
      WritesExactly(old(invites), old(nextPk), data, allowed);
      var created := Created(add, allowed, nextPk);
      invites := invites + created;
      nextPk := nextPk + |add|;
      r := Ok(InviteResult(pks + Pks(created), |created|, changed, total - changed));
    }
  }

  lemma SameMatches(invites: seq<Invite>, others: seq<Invite>, data: seq<UserData>, roles: set<Role>)
    requires |invites| == |others|
    requires forall i :: 0 <= i < |invites| ==> others[i].userData == invites[i].userData
    ensures forall i :: 0 <= i < |invites| ==> Matches(others[i], data) == Matches(invites[i], data)
  {
  }

  /** Updating does not change which items are covered. */
  lemma {:induction false} SameHandled(invites: seq<Invite>, data: seq<UserData>, roles: set<Role>)
    ensures forall items: seq<UserData> :: ToAdd(items, AllUpdated(invites, data, roles)) == ToAdd(items, invites)
  {
    forall items: seq<UserData> ensures ToAdd(items, AllUpdated(invites, data, roles)) == ToAdd(items, invites) {
      SameToAdd(items, invites, data, roles);
    }
  }

  lemma {:induction false} SameToAdd(items: seq<UserData>, invites: seq<Invite>, data: seq<UserData>, roles: set<Role>)
    ensures ToAdd(items, AllUpdated(invites, data, roles)) == ToAdd(items, invites)
  {
    hide Handled;
    if items != [] {
      SameToAdd(items[..|items| - 1], invites, data, roles);
      HandledSame(items[|items| - 1], invites, data, roles);
    }
  }

  lemma HandledSame(item: UserData, invites: seq<Invite>, data: seq<UserData>, roles: set<Role>)
    ensures Handled(item, AllUpdated(invites, data, roles)) == Handled(item, invites)
  {
    hide Matches, Subset;
    var updated := AllUpdated(invites, data, roles);
    if Handled(item, invites) {
      var x :| x in invites && Subset(item, x.userData);
      var i :| 0 <= i < |invites| && invites[i] == x;
      assert updated[i] in updated && updated[i].userData == x.userData;
    }
    if Handled(item, updated) {
      var x :| x in updated && Subset(item, x.userData);
      var i :| 0 <= i < |updated| && updated[i] == x;
      assert invites[i] in invites && invites[i].userData == x.userData;
    }
  }
}
