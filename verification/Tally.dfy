/** Counting the votes of a poll (voteit/poll/models.py). */
module Tally {
  import opened Collections

  // ------------------------------------------------------------- data model

  /** What a voter handed in: the text of the vote, if any. */
  type Ballot = Option<string>

  /** One per voter and poll, in the order of their keys. */
  datatype Vote = Vote(user: int, abstain: bool, ballot: Ballot)

  type Counter = map<Ballot, int>

  /** The weight a vote carries: voters not in the register count as one. */
  function Weight(weights: map<int, int>, user: int): int {
    if user in weights then weights[user] else 1
  }

  // ------------------------------------------------------------- the count, stated

  function Share(v: Vote, weights: map<int, int>, b: Ballot): int {
    if !v.abstain && v.ballot == b then Weight(weights, v.user) else 0
  }

  function Waived(v: Vote, weights: map<int, int>): int {
    if v.abstain then Weight(weights, v.user) else 0
  }

  /** The summed weight of those who handed in this ballot. */
  function For(votes: seq<Vote>, weights: map<int, int>, b: Ballot): int {
    if votes == [] then 0 else
      For(votes[..|votes| - 1], weights, b) + Share(votes[|votes| - 1], weights, b)
  }

  /** The summed weight of those who abstained. */
  function Abstained(votes: seq<Vote>, weights: map<int, int>): int {
    if votes == [] then 0 else Abstained(votes[..|votes| - 1], weights) + Waived(votes[|votes| - 1], weights)
  }

  /** The ballots handed in at least once. */
  function Ballots(votes: seq<Vote>): set<Ballot> {
    set v <- votes | !v.abstain :: v.ballot
  }

  /** The count: every ballot handed in, with the summed weight of its voters. */
  function Count(votes: seq<Vote>, weights: map<int, int>): Counter {
    map b | b in Ballots(votes) :: For(votes, weights, b)
  }

  /** The summed weight of everyone who voted. */
  function Cast(votes: seq<Vote>, weights: map<int, int>): int {
    if votes == [] then 0 else Cast(votes[..|votes| - 1], weights) + Weight(weights, votes[|votes| - 1].user)
  }

  /** A voter has one vote in a poll. */
  predicate OnePerVoter(votes: seq<Vote>) {
    forall i, j :: 0 <= i < j < |votes| ==> votes[i].user != votes[j].user
  }

  predicate AllInRegister(votes: seq<Vote>, weights: map<int, int>) {
    forall v <- votes :: v.user in weights
  }

  // ------------------------------------------------------------ sums over maps

  ghost function Pick<K(!new)>(m: map<K, int>): (k: K)
    requires m != map[]
    ensures k in m
  {
    assert m.Keys != {};
    var k :| k in m.Keys;
    k
  }

  ghost function Sum<K(!new)>(m: map<K, int>): int
    decreases |m|
  {
    if m == map[] then 0 else m[Pick(m)] + Sum(m - {Pick(m)})
  }

  lemma {:induction false} SumWithout<K(!new)>(m: map<K, int>, k: K)
    requires k in m
    ensures Sum(m) == m[k] + Sum(m - {k})
    decreases |m|
  {
    var j := Pick(m);
    if j != k {
      assert (m - {j}) - {k} == (m - {k}) - {j};
      SumWithout(m - {j}, k);
      SumWithout(m - {k}, j);
    }
  }

  lemma SumUpdate<K(!new)>(m: map<K, int>, k: K, v: int)
    ensures Sum(m[k := v]) == Sum(m) - (if k in m then m[k] else 0) + v
  {
    SumWithout(m[k := v], k);
    assert m[k := v] - {k} == m - {k};
    if k in m {
      SumWithout(m, k);
    } else {
      assert m - {k} == m;
    }
  }

  lemma {:induction false} SumIsNonNegative(m: map<int, int>)
    requires forall k :: k in m ==> m[k] >= 0
    ensures Sum(m) >= 0
    decreases |m|
  {
    if m != map[] {
      var k := Pick(m);
      var rest := m - {k};
      assert k in m;
      assert m[k] >= 0;
      SumIsNonNegative(rest);
      assert Sum(m) == m[k] + Sum(rest);
    }
  }

  // ------------------------------------------------------------- the algorithm

  lemma BallotsSnoc(votes: seq<Vote>, v: Vote)
    ensures Ballots(votes + [v]) == Ballots(votes) + if v.abstain then {} else {v.ballot}
  {
    assert forall u <- votes :: u in votes + [v];
    assert v in votes + [v];
  }

  lemma CountSnoc(votes: seq<Vote>, weights: map<int, int>, v: Vote)
    ensures Count(votes + [v], weights) ==
            var before := Count(votes, weights);
            if v.abstain then before
            else before[v.ballot := (if v.ballot in before then before[v.ballot] else 0) + Weight(weights, v.user)]
  {
    BallotsSnoc(votes, v);
    assert (votes + [v])[..|votes|] == votes;
    if v.ballot !in Ballots(votes) {
      NoneForUnused(votes, weights, v.ballot);
    }
  }

  lemma {:induction false} NoneForUnused(votes: seq<Vote>, weights: map<int, int>, b: Ballot)
    requires b !in Ballots(votes)
    ensures For(votes, weights, b) == 0
  {
    if votes != [] {
      var init, v := votes[..|votes| - 1], votes[|votes| - 1];
      assert votes == init + [v];
      BallotsSnoc(init, v);
      NoneForUnused(init, weights, b);
    }
  }

  /** The loop of finalize_vote_data. */
  method CountVotes(votes: seq<Vote>, weights: map<int, int>) returns (counter: Counter, abstains: int)
    ensures counter == Count(votes, weights) && abstains == Abstained(votes, weights)
  {
    counter, abstains := map[], 0;
    for i := 0 to |votes|
      invariant counter == Count(votes[..i], weights)
      invariant abstains == Abstained(votes[..i], weights)
    {
      var v := votes[i];
      var w := if v.user in weights then weights[v.user] else 1;
      assert votes[..i + 1][..i] == votes[..i] && votes[..i + 1] == votes[..i] + [v];
      CountSnoc(votes[..i], weights, v);
      if v.abstain {
        abstains := abstains + w;
      } else {
        counter := counter[v.ballot := (if v.ballot in counter then counter[v.ballot] else 0) + w];
      }
    }
    assert votes[..|votes|] == votes;
  }

  /** The sum of the values of a counter. */
  method SumValues(counter: Counter) returns (total: int)
    ensures total == Sum(counter)
  {
    total := 0;
    var rest := counter;
    while rest != map[]
      invariant total + Sum(rest) == Sum(counter)
      decreases |rest|
    {
      var b := AnyOf(rest.Keys);
      SumWithout(rest, b);
      total := total + rest[b];
      rest := rest - {b};
    }
  }

  /** Votes of those no longer in the register are removed before counting. */
  function InRegister(votes: seq<Vote>, weights: map<int, int>): seq<Vote> {
    if votes == [] then []
    else if votes[|votes| - 1].user in weights then InRegister(votes[..|votes| - 1], weights) + [votes[|votes| - 1]]
    else InRegister(votes[..|votes| - 1], weights)
  }

  lemma {:induction false} InRegisterIsExact(votes: seq<Vote>, weights: map<int, int>)
    ensures AllInRegister(InRegister(votes, weights), weights)
    ensures forall v: Vote :: v in InRegister(votes, weights) <==> v in votes && v.user in weights
    ensures OnePerVoter(votes) ==> OnePerVoter(InRegister(votes, weights))
  {
    if votes != [] {
      var init := votes[..|votes| - 1];
      InRegisterIsExact(init, weights);
      assert votes == init + [votes[|votes| - 1]];
      if OnePerVoter(votes) {
        var kept := InRegister(init, weights);
        forall i | 0 <= i < |kept| ensures kept[i].user != votes[|votes| - 1].user {
          assert kept[i] in init;
        }
      }
    }
  }

  // ------------------------------------------------------------ conservation

  /** No weight is lost or made up: what the ballots got and what abstained is what was cast. */
  lemma {:induction false} NothingLost(votes: seq<Vote>, weights: map<int, int>)
    ensures Sum(Count(votes, weights)) + Abstained(votes, weights) == Cast(votes, weights)
  {
    hide Count;
    if votes == [] {
      EmptyCount(weights);
    } else {
      var init, v := votes[..|votes| - 1], votes[|votes| - 1];
      assert votes == init + [v];
      NothingLost(init, weights);
      CountSnoc(init, weights, v);
      if !v.abstain {
        var before := Count(init, weights);
        SumUpdate(before, v.ballot, (if v.ballot in before then before[v.ballot] else 0) + Weight(weights, v.user));
      }
    }
  }

  lemma EmptyCount(weights: map<int, int>)
    ensures Count([], weights) == map[]
  {
  }

  function Voters(votes: seq<Vote>): set<int> {
    set v <- votes :: v.user
  }

  lemma {:induction false} CastIsPartOfRegister(votes: seq<Vote>, weights: map<int, int>)
    requires OnePerVoter(votes) && AllInRegister(votes, weights)
    ensures Cast(votes, weights) + Sum(weights - Voters(votes)) == Sum(weights)
  {
    if votes == [] {
      assert weights - Voters([]) == weights;
    } else {
      var init, v := votes[..|votes| - 1], votes[|votes| - 1];
      assert votes == init + [v];
      assert forall u <- init :: u in votes;
      assert v in votes;
      CastIsPartOfRegister(init, weights);
      assert v.user !in Voters(init);
      assert Voters(votes) == Voters(init) + {v.user};
      var rest := weights - Voters(init);
      SumWithout(rest, v.user);
      assert rest - {v.user} == weights - Voters(votes);
    }
  }

  /** For registers without negative weights the count and the abstentions stay within the total
      weight of the register. */
  lemma WithinTotal(votes: seq<Vote>, weights: map<int, int>)
    requires OnePerVoter(votes) && AllInRegister(votes, weights)
    requires forall user :: user in weights ==> weights[user] >= 0
    ensures Sum(Count(votes, weights)) + Abstained(votes, weights) <= Sum(weights)
  {
    NothingLost(votes, weights);
    CastIsPartOfRegister(votes, weights);
    var rest := weights - Voters(votes);
    assert forall user :: user in rest ==> user in weights && rest[user] == weights[user];
    SumIsNonNegative(rest);
  }

  // ------------------------------------------------------------ ballot by ballot

  /** The part of the register held by these users. */
  function Restricted(weights: map<int, int>, users: set<int>): map<int, int> {
    map user | user in weights && user in users :: weights[user]
  }

  function Supporters(votes: seq<Vote>, b: Ballot): set<int> {
    set v <- votes | !v.abstain && v.ballot == b :: v.user
  }

  function Abstainers(votes: seq<Vote>): set<int> {
    set v <- votes | v.abstain :: v.user
  }

  lemma AddUser(weights: map<int, int>, users: set<int>, user: int)
    requires user in weights && user !in users
    ensures Sum(Restricted(weights, users + {user})) == Sum(Restricted(weights, users)) + weights[user]
  {
    assert Restricted(weights, users + {user}) == Restricted(weights, users)[user := weights[user]];
    SumUpdate(Restricted(weights, users), user, weights[user]);
  }

  lemma SupportersSnoc(votes: seq<Vote>, v: Vote, b: Ballot)
    ensures Supporters(votes + [v], b) ==
            if !v.abstain && v.ballot == b then Supporters(votes, b) + {v.user} else Supporters(votes, b)
    ensures Abstainers(votes + [v]) == if v.abstain then Abstainers(votes) + {v.user} else Abstainers(votes)
  {
    assert v in votes + [v] && forall u <- votes :: u in votes + [v];
  }

  lemma SupportersVoted(votes: seq<Vote>, user: int, b: Ballot)
    requires forall v <- votes :: v.user != user
    ensures user !in Supporters(votes, b) + Abstainers(votes)
  {
  }

  lemma NobodyVoted(votes: seq<Vote>, weights: map<int, int>, b: Ballot)
    requires votes == []
    ensures Sum(Restricted(weights, Supporters(votes, b))) == 0 == Sum(Restricted(weights, Abstainers(votes)))
  {
    assert Restricted(weights, Supporters(votes, b)) == map[] == Restricted(weights, Abstainers(votes));
  }

  lemma LastVote(votes: seq<Vote>, weights: map<int, int>)
    requires votes != [] && OnePerVoter(votes) && AllInRegister(votes, weights)
    ensures var init, v := votes[..|votes| - 1], votes[|votes| - 1];
            && votes == init + [v] && v.user in weights && Weight(weights, v.user) == weights[v.user]
            && OnePerVoter(init) && AllInRegister(init, weights)
            && forall u <- init :: u.user != v.user
  {
    var init, v := votes[..|votes| - 1], votes[|votes| - 1];
    assert votes == init + [v];
    assert v in votes && forall u <- init :: u in votes;
  }

  lemma {:induction false} WeightOfSupporters(votes: seq<Vote>, weights: map<int, int>, b: Ballot)
    requires OnePerVoter(votes) && AllInRegister(votes, weights)
    ensures For(votes, weights, b) == Sum(Restricted(weights, Supporters(votes, b)))
  {
    hide Restricted, Supporters, Abstainers, Sum, OnePerVoter, AllInRegister, Weight;
    if votes == [] {
      NobodyVoted(votes, weights, b);
    } else {
      var init, v := votes[..|votes| - 1], votes[|votes| - 1];
      LastVote(votes, weights);
      WeightOfSupporters(init, weights, b);
      SupportersVoted(init, v.user, b);
      SupportersSnoc(init, v, b);
      if !v.abstain && v.ballot == b {
        AddUser(weights, Supporters(init, b), v.user);
      }
    }
  }

  lemma {:induction false} WeightOfAbstainers(votes: seq<Vote>, weights: map<int, int>)
    requires OnePerVoter(votes) && AllInRegister(votes, weights)
    ensures Abstained(votes, weights) == Sum(Restricted(weights, Abstainers(votes)))
  {
    hide Restricted, Supporters, Abstainers, Sum, OnePerVoter, AllInRegister, Weight;
    if votes == [] {
      NobodyVoted(votes, weights, None);
    } else {
      var init, v := votes[..|votes| - 1], votes[|votes| - 1];
      LastVote(votes, weights);
      WeightOfAbstainers(init, weights);
      SupportersVoted(init, v.user, None);
      SupportersSnoc(init, v, None);
      if v.abstain {
        AddUser(weights, Abstainers(init), v.user);
      }
    }
  }

  /** Every ballot handed in, and no other, is counted with the weight its voters have in the
      register together, and those who abstained with theirs. */
  lemma CountIsExact(votes: seq<Vote>, weights: map<int, int>)
    requires OnePerVoter(votes) && AllInRegister(votes, weights)
    ensures forall b: Ballot :: b in Count(votes, weights) <==> exists v <- votes :: !v.abstain && v.ballot == b
    ensures forall b: Ballot :: b in Count(votes, weights) ==>
              Count(votes, weights)[b] == Sum(Restricted(weights, Supporters(votes, b)))
    ensures Abstained(votes, weights) == Sum(Restricted(weights, Abstainers(votes)))
  {
    hide For, Abstained, Restricted, Supporters;
    forall b: Ballot ensures For(votes, weights, b) == Sum(Restricted(weights, Supporters(votes, b))) {
      WeightOfSupporters(votes, weights, b);
    }
    WeightOfAbstainers(votes, weights);
  }

  // ---------------------------------------------------------- order of the votes

  lemma {:induction false} ForWithout(votes: seq<Vote>, weights: map<int, int>, b: Ballot, i: nat)
    requires i < |votes|
    ensures For(votes, weights, b) == For(votes[..i] + votes[i + 1..], weights, b) + Share(votes[i], weights, b)
    ensures Abstained(votes, weights) == Abstained(votes[..i] + votes[i + 1..], weights) + Waived(votes[i], weights)
  {
    hide Share, Waived;
    var rest := votes[..i] + votes[i + 1..];
    if i == |votes| - 1 {
      assert rest == votes[..i];
    } else {
      var init := votes[..|votes| - 1];
      ForWithout(init, weights, b, i);
      assert rest[..|rest| - 1] == init[..i] + init[i + 1..];
      assert rest[|rest| - 1] == votes[|votes| - 1];
    }
  }

  /** The order in which the votes are listed does not matter. */
  lemma {:induction false} OrderDoesNotMatter(votes: seq<Vote>, other: seq<Vote>, weights: map<int, int>)
    requires multiset(votes) == multiset(other)
    ensures Count(votes, weights) == Count(other, weights)
    ensures Abstained(votes, weights) == Abstained(other, weights)
  {
    assert forall v: Vote :: v in votes <==> v in multiset(votes);
    assert forall v: Vote :: v in other <==> v in multiset(other);
    assert Ballots(votes) == Ballots(other);
    forall b: Ballot ensures For(votes, weights, b) == For(other, weights, b) {
      SameFor(votes, other, weights, b);
    }
    SameFor(votes, other, weights, None);
  }

  lemma {:induction false} SameFor(votes: seq<Vote>, other: seq<Vote>, weights: map<int, int>, b: Ballot)
    requires multiset(votes) == multiset(other)
    ensures For(votes, weights, b) == For(other, weights, b)
    ensures Abstained(votes, weights) == Abstained(other, weights)
  {
    hide Share, Waived;
    SameSize(votes, other);
    if votes != [] {
      var n := |votes| - 1;
      var i := FindSame(votes, other, votes[n]);
      DropLast(votes);
      TakeOut(other, i);
      SameFor(votes[..n], other[..i] + other[i + 1..], weights, b);
      ForWithout(other, weights, b, i);
    }
  }

  // ---------------------------------------------------------- the default weight

  /** Once the votes of others are removed, whatever weight the others would have had does not
      matter: two ways of completing the register give the same count. */
  lemma {:induction false} DefaultIsUnused(votes: seq<Vote>, weights: map<int, int>, completed: map<int, int>)
    requires weights.Keys <= completed.Keys
    requires forall user :: user in weights ==> completed[user] == weights[user]
    ensures var kept := InRegister(votes, weights);
            Count(kept, weights) == Count(kept, completed) && Abstained(kept, weights) == Abstained(kept, completed)
  {
    var kept := InRegister(votes, weights);
    InRegisterIsExact(votes, weights);
    forall b: Ballot ensures For(kept, weights, b) == For(kept, completed, b) {
      SameWeights(kept, weights, completed, b);
    }
    SameWeights(kept, weights, completed, None);
  }

  lemma {:induction false} SameWeights(votes: seq<Vote>, weights: map<int, int>, other: map<int, int>, b: Ballot)
    requires forall v <- votes :: Weight(weights, v.user) == Weight(other, v.user)
    ensures For(votes, weights, b) == For(votes, other, b)
    ensures Abstained(votes, weights) == Abstained(votes, other)
  {
    if votes != [] {
      SameWeights(votes[..|votes| - 1], weights, other, b);
      assert votes[|votes| - 1] in votes;
    }
  }
}
