// Replicas that received the same observations report the same mesh health.
module HealthConvergence {
  import opened Sorting
  import opened HealthStore
  import opened HealthScores
  import opened MeshHealth

  // ---- Votes and majorities ----

  ghost function VoteIs(l: Label, x: real): Observation -> bool {
    (o: Observation) => LabelOf(o.score) == l && o.score == x
  }

  lemma {:induction false} VoteCount(obs: seq<Observation>, l: Label, x: real)
    ensures multiset(Votes(obs, l))[x] == CountIf(obs, VoteIs(l, x))
  {
    if obs != [] {
      VoteCount(obs[..|obs| - 1], l, x);
    }
  }

  lemma VotesForgetOrder(a: seq<Observation>, b: seq<Observation>, l: Label)
    requires multiset(a) == multiset(b)
    ensures multiset(Votes(a, l)) == multiset(Votes(b, l)) && |Votes(a, l)| == |Votes(b, l)|
    ensures MajorityScore(a, l) == MajorityScore(b, l)
  {
    forall x
      ensures multiset(Votes(a, l))[x] == multiset(Votes(b, l))[x]
    {
      VoteCount(a, l, x);
      VoteCount(b, l, x);
      CountIfForgetsOrder(a, b, VoteIs(l, x));
    }
    SameMembers(Votes(a, l), Votes(b, l));
    RealOrder();
    SortForgetsOrder(Votes(a, l), Votes(b, l), RealLeq);
  }

  lemma EvaluatorsForgetOrder(a: seq<Observation>, b: seq<Observation>)
    requires multiset(a) == multiset(b)
    ensures Evaluators(a) == Evaluators(b)
  {
    SameMembers(a, b);
  }

  lemma WinsForgetsOrder(a: seq<Observation>, b: seq<Observation>)
    requires multiset(a) == multiset(b)
    ensures forall l :: Wins(a, l) <==> Wins(b, l)
  {
    EvaluatorsForgetOrder(a, b);
    forall l
      ensures Wins(a, l) <==> Wins(b, l)
    {
      VotesForgetOrder(a, b, l);
    }
  }

  lemma {:induction false} RowsAreEvaluators(obs: seq<Observation>)
    requires OneRowPerEvaluator(obs)
    ensures |Evaluators(obs)| == |obs|
  {
    if obs != [] {
      var n := |obs| - 1;
      RowsAreEvaluators(obs[..n]);
      assert obs == obs[..n] + [obs[n]];
      assert Evaluators(obs) == Evaluators(obs[..n]) + {obs[n].evaluator};
    }
  }

  lemma {:induction false} VotesAreDisjoint(obs: seq<Observation>, l: Label, m: Label)
    requires l != m
    ensures |Votes(obs, l)| + |Votes(obs, m)| <= |obs|
  {
    if obs != [] {
      VotesAreDisjoint(obs[..|obs| - 1], l, m);
    }
  }

  // At most one bucket wins, so it does not matter which the hash map shows first.
  lemma MajorityIsUnique(obs: seq<Observation>, l: Label, m: Label)
    requires OneRowPerEvaluator(obs) && Wins(obs, l) && Wins(obs, m)
    ensures l == m
  {
    RowsAreEvaluators(obs);
    if l != m {
      VotesAreDisjoint(obs, l, m);
    }
  }

  lemma {:induction false} VotesHaveTheLabel(obs: seq<Observation>, l: Label)
    ensures forall x :: x in Votes(obs, l) ==> LabelOf(x) == l && exists o :: o in obs && o.score == x
  {
    if obs != [] {
      var n := |obs| - 1;
      VotesHaveTheLabel(obs[..n], l);
      forall x | x in Votes(obs, l)
        ensures LabelOf(x) == l && exists o :: o in obs && o.score == x
      {
        if x in Votes(obs[..n], l) {
          var o :| o in obs[..n] && o.score == x;
          assert o in obs;
        } else {
          assert obs[n] in obs && obs[n].score == x;
        }
      }
    }
  }

  lemma MajorityScoreIsAVote(obs: seq<Observation>, l: Label)
    requires Wins(obs, l)
    ensures MajorityScore(obs, l) in Votes(obs, l) && LabelOf(MajorityScore(obs, l)) == l
  {
    var sorted := Sort(Votes(obs, l), RealLeq);
    SortPermutes(Votes(obs, l), RealLeq);
    SameMembers(sorted, Votes(obs, l));
    VotesHaveTheLabel(obs, l);
    assert sorted[RankIndex(|sorted|, 50)] in sorted;
  }

  // A strict majority is reported, with the median of its scores and under its own label,
  // whatever the others say; unless rounding lifts that median over a label's bound.
  lemma MajorityPrevails(obs: seq<Observation>, l: Label, r: ResolvedNode)
    requires OneRowPerEvaluator(obs) && |obs| >= QUORUM && Wins(obs, l) && Resolves(obs, r)
    ensures r.resolution == Majority && !r.contested && r.evaluators == |obs|
    ensures r.score == Round3(MajorityScore(obs, l))
    ensures r.grade == l <==> !JustBelow(MajorityScore(obs, l))
  {
    RowsAreEvaluators(obs);
    assert HasMajority(obs);
    var m :| Wins(obs, m) && r == NodeOf(Round3(MajorityScore(obs, m)), Majority, |obs|);
    MajorityIsUnique(obs, l, m);
    MajorityScoreIsAVote(obs, l);
    Round3KeepsLabel(MajorityScore(obs, l));
  }

  ghost predicate WholeThousandths(x: real) {
    exists n: int :: x == InThousandths(n)
  }

  function InThousandths(n: int): real {
    n as real / 1000.0
  }

  lemma MajorityInThousandthsPrevails(obs: seq<Observation>, l: Label, r: ResolvedNode)
    requires OneRowPerEvaluator(obs) && |obs| >= QUORUM && Wins(obs, l) && Resolves(obs, r)
    requires forall o :: o in obs && LabelOf(o.score) == l ==> WholeThousandths(o.score)
    ensures r.grade == l && r.score == MajorityScore(obs, l)
  {
    MajorityPrevails(obs, l, r);
    MajorityScoreIsAVote(obs, l);
    VotesHaveTheLabel(obs, l);
    var x := MajorityScore(obs, l);
    var o :| o in obs && o.score == x;
    var n :| x == InThousandths(n);
    Round3OfThousandths(n);
  }

  // A newest row's score, to the thousandth.
  ghost predicate ScoredByNewest(obs: seq<Observation>, r: ResolvedNode) {
    exists o :: o in obs && (forall x :: x in obs ==> x.at <= o.at) && -0.0005 <= r.score - o.score <= 0.0005
  }

  // How a node with rows is resolved: below three evaluators by its newest row, unconfirmed;
  // then by a label that more than half of them vote for; else by its newest row, contested.
  lemma ResolutionMeans(obs: seq<Observation>, r: ResolvedNode)
    requires obs != [] && Resolves(obs, r)
    ensures r.evaluators == |set o | o in obs :: o.evaluator| && (r.contested <==> r.resolution == MostRecent)
    ensures r.evaluators < 3 ==> r.resolution == Unconfirmed && ScoredByNewest(obs, r)
    ensures r.evaluators >= 3 && (exists l :: 2 * |Votes(obs, l)| > r.evaluators) ==> r.resolution == Majority
    ensures r.evaluators >= 3 && (forall l :: 2 * |Votes(obs, l)| <= r.evaluators)
      ==> r.resolution == MostRecent && ScoredByNewest(obs, r)
  {
    assert forall l :: Wins(obs, l) <==> 2 * |Votes(obs, l)| > |Evaluators(obs)|;
    if o :| Freshest(obs, o) && r.score == Round3(o.score) {
      assert ScoredByNewest(obs, r);
    }
  }

  lemma ThreeDegradedRows() returns (obs: seq<Observation>)
    ensures OneRowPerEvaluator(obs) && |obs| == 3 && forall i :: 0 <= i < 3 ==> obs[i].score == 0.8449
    ensures forall i :: 0 <= i < 3 ==> LabelOf(obs[i].score) == Degraded
  {
    obs := [Observation("n", "a", 0.8449, 0), Observation("n", "b", 0.8449, 0), Observation("n", "c", 0.8449, 0)];
    LabelThresholds(0.8449);
  }

  // Three evaluators call a node degraded, and it is reported healthy.
  lemma RoundingCanMoveTheLabel(r: ResolvedNode) returns (obs: seq<Observation>)
    ensures OneRowPerEvaluator(obs) && |obs| == 3 && forall i :: 0 <= i < 3 ==> LabelOf(obs[i].score) == Degraded
    ensures Resolves(obs, r) ==> r.resolution == Majority && r.grade == Healthy && r.score == 0.845
  {
    obs := ThreeDegradedRows();
    AllVote(obs, Degraded);
    RowsAreEvaluators(obs);
    if Resolves(obs, r) {
      MajorityPrevails(obs, Degraded, r);
      MajorityScoreIsAVote(obs, Degraded);
      VotesHaveTheLabel(obs, Degraded);
      LabelThresholds(0.845);
    }
  }

  lemma {:induction false} AllVote(obs: seq<Observation>, l: Label)
    requires forall i :: 0 <= i < |obs| ==> LabelOf(obs[i].score) == l
    ensures |Votes(obs, l)| == |obs|
  {
    if obs != [] {
      AllVote(obs[..|obs| - 1], l);
    }
  }

  // ---- One node: when the order of its rows does not matter ----

  ghost predicate NewestIn(obs: seq<Observation>, o: Observation) {
    o in obs && forall x :: x in obs ==> x.at <= o.at
  }

  ghost predicate NewestAgree(obs: seq<Observation>) {
    forall x, y :: NewestIn(obs, x) && NewestIn(obs, y) ==> Round3(x.score) == Round3(y.score)
  }

  // A confirmed majority, or newest rows that agree to the thousandth.
  ghost predicate OrderFree(obs: seq<Observation>) {
    (|obs| >= QUORUM && HasMajority(obs)) || NewestAgree(obs)
  }

  lemma FreshestIsNewest(obs: seq<Observation>, o: Observation)
    requires Freshest(obs, o)
    ensures NewestIn(obs, o)
  {
  }

  lemma OrderIsForgotten(a: seq<Observation>, b: seq<Observation>, r: ResolvedNode, q: ResolvedNode)
    requires OneRowPerEvaluator(a) && OrderFree(a) && multiset(a) == multiset(b)
    requires Resolves(a, r) && Resolves(b, q)
    ensures r == q
  {
    SameMembers(a, b);
    RowsAreEvaluators(a);
    EvaluatorsForgetOrder(a, b);
    WinsForgetsOrder(a, b);
    if |a| >= QUORUM && HasMajority(a) {
      var l :| Wins(a, l) && r == NodeOf(Round3(MajorityScore(a, l)), Majority, |a|);
      assert Wins(b, l);
      var m :| Wins(b, m) && q == NodeOf(Round3(MajorityScore(b, m)), Majority, |a|);
      MajorityIsUnique(a, l, m);
      VotesForgetOrder(a, b, l);
    } else if a != [] {
      assert !(|a| >= QUORUM && HasMajority(b));
      FreshestRowsAgree(a, b, r, q);
    }
  }

  lemma FreshestRowsAgree(a: seq<Observation>, b: seq<Observation>, r: ResolvedNode, q: ResolvedNode)
    requires a != [] && NewestAgree(a) && (forall o :: o in a <==> o in b) && Evaluators(a) == Evaluators(b)
    requires |Evaluators(a)| < QUORUM || (!HasMajority(a) && !HasMajority(b))
    requires Resolves(a, r) && Resolves(b, q)
    ensures r == q
  {
    assert a[0] in b;
    var n := |Evaluators(a)|;
    var how := if n < QUORUM then Unconfirmed else MostRecent;
    var x :| Freshest(a, x) && r == NodeOf(Round3(x.score), how, n);
    var y :| Freshest(b, y) && q == NodeOf(Round3(y.score), how, n);
    FreshestIsNewest(a, x);
    FreshestIsNewest(b, y);
    assert NewestIn(a, y);
  }

  // Any newest row can be brought to the end, and decides there.
  lemma BringToEnd(a: seq<Observation>, o: Observation) returns (b: seq<Observation>)
    requires NewestIn(a, o)
    ensures multiset(b) == multiset(a) && Freshest(b, o)
  {
    var i :| 0 <= i < |a| && a[i] == o;
    b := MoveToEnd(a, i);
    SameMembers(a, b);
    assert forall j :: 0 <= j < |b| ==> b[j] in a;
    assert FreshestAt(b, |b| - 1);
  }

  lemma ResolvedByFreshest(a: seq<Observation>, b: seq<Observation>, o: Observation) returns (r: ResolvedNode)
    requires OneRowPerEvaluator(a) && multiset(b) == multiset(a) && Freshest(b, o)
    requires !(|a| >= QUORUM && HasMajority(a))
    ensures Resolves(b, r) && r.score == Round3(o.score)
  {
    SameMembers(a, b);
    RowsAreEvaluators(a);
    EvaluatorsForgetOrder(a, b);
    WinsForgetsOrder(a, b);
    r := NodeOf(Round3(o.score), if |a| < QUORUM then Unconfirmed else MostRecent, |a|);
  }

  // Without order-freedom two orders of the same rows resolve differently.
  lemma NodeRemembersOrder(a: seq<Observation>)
    returns (b: seq<Observation>, c: seq<Observation>, r: ResolvedNode, q: ResolvedNode)
    requires OneRowPerEvaluator(a) && !OrderFree(a)
    ensures multiset(b) == multiset(a) && multiset(c) == multiset(a) && Resolves(b, r) && Resolves(c, q) && r != q
  {
    var x, y :| NewestIn(a, x) && NewestIn(a, y) && Round3(x.score) != Round3(y.score);
    b := BringToEnd(a, x);
    c := BringToEnd(a, y);
    r := ResolvedByFreshest(a, b, x);
    q := ResolvedByFreshest(a, c, y);
  }

  // A node resolves to one answer, whatever the order of its rows, exactly when they are
  // order-free.
  lemma NodeForgetsOrder(a: seq<Observation>)
    requires OneRowPerEvaluator(a)
    ensures OrderFree(a) <==> forall b, c, r, q ::
      multiset(b) == multiset(a) && multiset(c) == multiset(a) && Resolves(b, r) && Resolves(c, q) ==> r == q
  {
    if OrderFree(a) {
      forall b, c, r, q | multiset(b) == multiset(a) && multiset(c) == multiset(a) && Resolves(b, r) && Resolves(c, q)
        ensures r == q
      {
        var p := ResolutionOf(a);
        OrderIsForgotten(a, b, p, r);
        OrderIsForgotten(a, c, p, q);
      }
    } else {
      var b, c, r, q := NodeRemembersOrder(a);
    }
  }

  lemma {:induction false} FreshestExists(obs: seq<Observation>, n: nat) returns (i: int)
    requires 0 < n <= |obs|
    ensures FreshestAt(obs[..n], i)
  {
    if n == 1 {
      i := 0;
    } else {
      i := FreshestExists(obs, n - 1);
      i := if obs[n - 1].at >= obs[i].at then n - 1 else i;
    }
  }

  lemma ResolutionOf(obs: seq<Observation>) returns (r: ResolvedNode)
    ensures Resolves(obs, r)
  {
    var n := |Evaluators(obs)|;
    if obs == [] {
      r := ResolvedNode(0.0, Unavailable, NoEvaluators, 0, false);
    } else {
      var i := FreshestExists(obs, |obs|);
      assert obs[..|obs|] == obs;
      var o := obs[i];
      assert Freshest(obs, o);
      if n >= QUORUM && HasMajority(obs) {
        var l :| Wins(obs, l);
        r := NodeOf(Round3(MajorityScore(obs, l)), Majority, n);
      } else {
        r := NodeOf(Round3(o.score), if n < QUORUM then Unconfirmed else MostRecent, n);
      }
    }
  }

  // ---- The mesh ----

  lemma AggregateForgetsOrder(a: seq<ResolvedNode>, b: seq<ResolvedNode>, h: FederatedHealth, k: FederatedHealth)
    requires multiset(a) == multiset(b) && Aggregates(a, h) && Aggregates(b, k)
    ensures h == k
  {
    SameMembers(a, b);
    MappedForgetsOrder(a, b, ScoreOf());
    RealOrder();
    SortForgetsOrder(Scores(a), Scores(b), RealLeq);
    TallyForgetsOrder(a, b);
    assert a == [] <==> b == [];
  }

  lemma TallyForgetsOrder(a: seq<ResolvedNode>, b: seq<ResolvedNode>)
    requires multiset(a) == multiset(b)
    ensures forall l :: CountIf(a, HasLabel(l)) == CountIf(b, HasLabel(l))
    ensures CountIf(a, IsContested()) == CountIf(b, IsContested())
      && CountIf(a, IsUnconfirmed()) == CountIf(b, IsUnconfirmed())
  {
    forall l
      ensures CountIf(a, HasLabel(l)) == CountIf(b, HasLabel(l))
    {
      CountIfForgetsOrder(a, b, HasLabel(l));
    }
    CountIfForgetsOrder(a, b, IsContested());
    CountIfForgetsOrder(a, b, IsUnconfirmed());
  }

  lemma OneMoreMember<T>(s: seq<T>, p: seq<T>, x: T)
    requires s == p + [x]
    ensures multiset(s) == multiset(p) + multiset{x}
  {
  }

  lemma {:induction false} RowsOfCount(obs: seq<Observation>, node: string, o: Observation)
    ensures multiset(RowsOf(obs, node))[o] == if o.node == node then multiset(obs)[o] else 0
  {
    if obs != [] {
      var p, x := obs[..|obs| - 1], obs[|obs| - 1];
      RowsOfCount(p, node, o);
      OneMoreMember(obs, p, x);
      if x.node == node {
        OneMoreMember(RowsOf(obs, node), RowsOf(p, node), x);
      }
    }
  }

  lemma RowsOfForgetsOrder(a: seq<Observation>, b: seq<Observation>, node: string)
    requires multiset(a) == multiset(b)
    ensures multiset(RowsOf(a, node)) == multiset(RowsOf(b, node))
  {
    forall o
      ensures multiset(RowsOf(a, node))[o] == multiset(RowsOf(b, node))[o]
    {
      RowsOfCount(a, node, o);
      RowsOfCount(b, node, o);
    }
  }

  // What a node was resolved to.
  ghost function ResolvedAs(nodes: seq<string>, rs: seq<ResolvedNode>): string -> ResolvedNode
    requires |rs| == |nodes|
  {
    (n: string) =>
      if n in nodes then var i :| 0 <= i < |nodes| && nodes[i] == n; rs[i]
      else ResolvedNode(0.0, Unavailable, NoEvaluators, 0, false)
  }

  lemma ResolvedListing(ok: (string, ResolvedNode) -> bool, nodes: seq<string>, rs: seq<ResolvedNode>)
    requires Distinct(nodes) && Each(ok, nodes, rs)
    ensures rs == Mapped(nodes, ResolvedAs(nodes, rs))
    ensures forall n :: n in nodes ==> ok(n, ResolvedAs(nodes, rs)(n))
  {
  }

  // Listings whose results agree node by node hold the same results.
  lemma ListingsAgree(ok: (string, ResolvedNode) -> bool, ok': (string, ResolvedNode) -> bool,
      nodes: seq<string>, rs: seq<ResolvedNode>, nodes': seq<string>, rs': seq<ResolvedNode>)
    requires Distinct(nodes) && Distinct(nodes') && (forall n :: n in nodes <==> n in nodes')
    requires Each(ok, nodes, rs) && Each(ok', nodes', rs')
    requires forall n, r, q :: n in nodes && ok(n, r) && ok'(n, q) ==> r == q
    ensures multiset(rs) == multiset(rs')
  {
    var f := ResolvedAs(nodes, rs);
    ResolvedListing(ok, nodes, rs);
    ResolvedListing(ok', nodes', rs');
    assert rs' == Mapped(nodes', f);
    DistinctSameMembers(nodes, nodes');
    MappedForgetsOrder(nodes, nodes', f);
  }

  // Every node of the rows has one row per evaluator and resolves the same in any order.
  ghost predicate OrderFreeNodes(obs: seq<Observation>) {
    forall n :: n in Nodes(obs) ==> OneRowPerEvaluator(RowsOf(obs, n)) && OrderFree(RowsOf(obs, n))
  }

  lemma NodesAgree(a: seq<Observation>, b: seq<Observation>, n: string, r: ResolvedNode, q: ResolvedNode)
    requires multiset(a) == multiset(b) && OrderFreeNodes(a) && n in Nodes(a)
    requires Resolving(a)(n, r) && Resolving(b)(n, q)
    ensures r == q
  {
    RowsOfForgetsOrder(a, b, n);
    OrderIsForgotten(RowsOf(a, n), RowsOf(b, n), r, q);
  }

  lemma NodesForgetOrder(a: seq<Observation>, b: seq<Observation>)
    requires multiset(a) == multiset(b)
    ensures Nodes(a) == Nodes(b)
  {
    SameMembers(a, b);
  }

  lemma SameResults(a: seq<Observation>, b: seq<Observation>,
      nodes: seq<string>, rs: seq<ResolvedNode>, nodes': seq<string>, rs': seq<ResolvedNode>)
    requires multiset(a) == multiset(b) && OrderFreeNodes(a)
    requires ResolvesAll(a, nodes, rs) && ResolvesAll(b, nodes', rs')
    ensures multiset(rs) == multiset(rs')
  {
    NodesForgetOrder(a, b);
    forall n, r, q | n in nodes && Resolving(a)(n, r) && Resolving(b)(n, q)
      ensures r == q
    {
      NodesAgree(a, b, n, r, q);
    }
    ListingsAgree(Resolving(a), Resolving(b), nodes, rs, nodes', rs');
  }

  lemma FederationForgetsOrder(a: seq<Observation>, b: seq<Observation>, h: FederatedHealth, k: FederatedHealth)
    requires multiset(a) == multiset(b) && OrderFreeNodes(a)
    requires Federates(a, h) && Federates(b, k)
    ensures h == k
  {
    var nodes, rs :| ResolvesAll(a, nodes, rs) && Aggregates(rs, h);
    var nodes', rs' :| ResolvesAll(b, nodes', rs') && Aggregates(rs', k);
    SameResults(a, b, nodes, rs, nodes', rs');
    AggregateForgetsOrder(rs, rs', h, k);
  }

  // ---- Replicas ----

  lemma {:induction false} RowsOfMembers(obs: seq<Observation>, node: string)
    ensures forall o :: o in RowsOf(obs, node) <==> o in obs && o.node == node
  {
    forall o
      ensures o in RowsOf(obs, node) <==> o in obs && o.node == node
    {
      RowsOfCount(obs, node, o);
      assert o in RowsOf(obs, node) <==> multiset(RowsOf(obs, node))[o] > 0;
      assert o in obs <==> multiset(obs)[o] > 0;
    }
  }

  lemma {:induction false} RowsOfDistinct(obs: seq<Observation>, node: string)
    requires Distinct(obs)
    ensures Distinct(RowsOf(obs, node))
  {
    if obs != [] {
      var n := |obs| - 1;
      RowsOfDistinct(obs[..n], node);
      RowsOfMembers(obs[..n], node);
    }
  }

  // A table keeps one row per evaluator of a node.
  lemma ListedOnce(rows: Table, obs: seq<Observation>, node: string)
    requires Listing(rows, obs)
    ensures OneRowPerEvaluator(RowsOf(obs, node))
  {
    var mine := RowsOf(obs, node);
    RowsOfDistinct(obs, node);
    RowsOfMembers(obs, node);
    forall i, j | 0 <= i < j < |mine|
      ensures mine[i].evaluator != mine[j].evaluator
    {
      assert mine[i] in obs && mine[j] in obs && mine[i] != mine[j];
    }
  }

  ghost predicate OrderFreeTable(rows: Table) {
    forall obs :: Listing(rows, obs) ==> OrderFreeNodes(obs)
  }

  // ---- The whole table: when the order of its rows does not matter ----

  lemma {:induction false} RowsOfConcat(a: seq<Observation>, b: seq<Observation>, node: string)
    ensures RowsOf(a + b, node) == RowsOf(a, node) + RowsOf(b, node)
  {
    if b == [] {
      assert a + b == a;
    } else {
      assert (a + b)[..|a + b| - 1] == a + b[..|b| - 1];
      RowsOfConcat(a, b[..|b| - 1], node);
    }
  }

  lemma {:induction false} RowsOfOwn(obs: seq<Observation>, node: string)
    requires forall o :: o in obs ==> o.node == node
    ensures RowsOf(obs, node) == obs
  {
    if obs != [] {
      var n := |obs| - 1;
      RowsOfOwn(obs[..n], node);
      assert obs[n] in obs && obs == obs[..n] + [obs[n]];
    }
  }

  lemma {:induction false} RowsOfOthers(obs: seq<Observation>, node: string)
    requires forall o :: o in obs ==> o.node != node
    ensures RowsOf(obs, node) == []
  {
    if obs != [] {
      var n := |obs| - 1;
      RowsOfOthers(obs[..n], node);
      assert obs[n] in obs;
    }
  }

  ghost function Others(obs: seq<Observation>, node: string): (others: seq<Observation>)
    ensures forall o :: o in others ==> o.node != node
  {
    if obs == [] then []
    else
      var n := |obs| - 1;
      Others(obs[..n], node) + if obs[n].node != node then [obs[n]] else []
  }

  lemma {:induction false} RowsAndOthers(obs: seq<Observation>, node: string)
    ensures multiset(RowsOf(obs, node)) + multiset(Others(obs, node)) == multiset(obs)
  {
    if obs != [] {
      var p, x := obs[..|obs| - 1], obs[|obs| - 1];
      RowsAndOthers(p, node);
      OneMoreMember(obs, p, x);
      if x.node == node {
        OneMoreMember(RowsOf(obs, node), RowsOf(p, node), x);
      } else {
        OneMoreMember(Others(obs, node), Others(p, node), x);
      }
    }
  }

  // The rows of one node can be put in any order without touching the others.
  lemma Rearranged(obs: seq<Observation>, node: string, mine: seq<Observation>) returns (b: seq<Observation>)
    requires multiset(mine) == multiset(RowsOf(obs, node))
    ensures multiset(b) == multiset(obs) && RowsOf(b, node) == mine
  {
    b := mine + Others(obs, node);
    RowsAndOthers(obs, node);
    SameMembers(mine, RowsOf(obs, node));
    RowsOfMembers(obs, node);
    RowsOfOwn(mine, node);
    RowsOfOthers(Others(obs, node), node);
    RowsOfConcat(mine, Others(obs, node), node);
  }

  lemma ListingPermuted(rows: Table, a: seq<Observation>, b: seq<Observation>)
    requires Listing(rows, a) && multiset(b) == multiset(a)
    ensures Listing(rows, b)
  {
    SameMembers(a, b);
    DistinctPermuted(a, b);
  }

  // Every two listings resolve every node alike.
  ghost predicate ResolvesAlike(rows: Table) {
    forall a, b, n, r, q ::
      Listing(rows, a) && Listing(rows, b) && n in Nodes(a) && Resolving(a)(n, r) && Resolving(b)(n, q) ==> r == q
  }

  lemma OrderFreeResolvesAlike(rows: Table)
    requires OrderFreeTable(rows)
    ensures ResolvesAlike(rows)
  {
    forall a, b, n, r, q
      | Listing(rows, a) && Listing(rows, b) && n in Nodes(a) && Resolving(a)(n, r) && Resolving(b)(n, q)
      ensures r == q
    {
      DistinctSameMembers(a, b);
      NodesAgree(a, b, n, r, q);
    }
  }

  lemma OrderMatters(rows: Table, a: seq<Observation>, n: string)
    requires Listing(rows, a) && n in Nodes(a) && !OrderFree(RowsOf(a, n))
    ensures !ResolvesAlike(rows)
  {
    ListedOnce(rows, a, n);
    var p, q, r, t := NodeRemembersOrder(RowsOf(a, n));
    var b := Rearranged(a, n, p);
    var c := Rearranged(a, n, q);
    ListingPermuted(rows, a, b);
    ListingPermuted(rows, a, c);
    NodesForgetOrder(a, b);
    assert Resolving(b)(n, r) && Resolving(c)(n, t) && n in Nodes(b);
  }

  // However the database lists the table, its nodes resolve alike exactly when each node's
  // rows are order-free.
  lemma TableForgetsOrder(rows: Table)
    ensures ResolvesAlike(rows) <==> OrderFreeTable(rows)
  {
    if OrderFreeTable(rows) {
      OrderFreeResolvesAlike(rows);
    }
    if ResolvesAlike(rows) {
      forall a, n | Listing(rows, a) && n in Nodes(a)
        ensures OneRowPerEvaluator(RowsOf(a, n)) && OrderFree(RowsOf(a, n))
      {
        ListedOnce(rows, a, n);
        if !OrderFree(RowsOf(a, n)) {
          OrderMatters(rows, a, n);
        }
      }
    }
  }

  // A health that a replica with these rows may report.
  ghost predicate Reports(rows: Table, h: FederatedHealth) {
    exists obs :: Listing(rows, obs) && Federates(obs, h)
  }

  method ReportMeshHealth(replica: Replica) returns (h: FederatedHealth)
    ensures Reports(replica.rows, h)
  {
    var obs := replica.AllHealthObservations();
    h := FederatedMeshHealth(obs);
  }

  // Two replicas that stored the same observations, in any order and with any repeats,
  // report the same health, whatever order the database and the hash maps use.
  lemma ReplicasAgree(s: seq<Observation>, t: seq<Observation>, h: FederatedHealth, k: FederatedHealth)
    requires SameSet(s, t) && Settled(s) && OrderFreeTable(Replay(s))
    requires Reports(Replay(s), h) && Reports(Replay(t), k)
    ensures Replay(s) == Replay(t) && h == k
  {
    SettledReplaysTheSame(s, t);
    var a :| Listing(Replay(s), a) && Federates(a, h);
    var b :| Listing(Replay(t), b) && Federates(b, k);
    DistinctSameMembers(a, b);
    FederationForgetsOrder(a, b, h, k);
  }

  // Observations of one node made at the same time agree on its score.
  ghost predicate NoTimeTies(s: seq<Observation>) {
    forall x, y :: x in s && y in s && x.node == y.node && x.at == y.at ==> x.score == y.score
  }

  lemma ListedWasReceived(s: seq<Observation>, obs: seq<Observation>, o: Observation)
    requires Listing(Replay(s), obs) && o in obs
    ensures o in s
  {
    var i := ReplayedRow(s, KeyOf(o));
    assert s[i] == o;
  }

  lemma NoTimeTiesIsOrderFree(s: seq<Observation>)
    requires NoTimeTies(s)
    ensures Settled(s) && OrderFreeTable(Replay(s))
  {
    forall obs, n | Listing(Replay(s), obs) && n in Nodes(obs)
      ensures OneRowPerEvaluator(RowsOf(obs, n)) && OrderFree(RowsOf(obs, n))
    {
      ListedOnce(Replay(s), obs, n);
      RowsOfMembers(obs, n);
      forall x, y | NewestIn(RowsOf(obs, n), x) && NewestIn(RowsOf(obs, n), y)
        ensures x.score == y.score
      {
        ListedWasReceived(s, obs, x);
        ListedWasReceived(s, obs, y);
      }
    }
  }

  lemma ReplicasAgreeWithoutTies(s: seq<Observation>, t: seq<Observation>, h: FederatedHealth, k: FederatedHealth)
    requires SameSet(s, t) && NoTimeTies(s)
    requires Reports(Replay(s), h) && Reports(Replay(t), k)
    ensures h == k
  {
    NoTimeTiesIsOrderFree(s);
    ReplicasAgree(s, t, h, k);
  }

  // ---- What the aggregate says of its nodes ----

  lemma ResolvedScore(obs: seq<Observation>, r: ResolvedNode)
    requires Resolves(obs, r) && obs != []
    ensures Round3(r.score) == r.score && r.grade == LabelOf(r.score)
  {
    var n := |Evaluators(obs)|;
    if n >= QUORUM && HasMajority(obs) {
      var l :| Wins(obs, l) && r == NodeOf(Round3(MajorityScore(obs, l)), Majority, n);
      Round3IsIdempotent(MajorityScore(obs, l));
    } else {
      var o :| Freshest(obs, o) && r == NodeOf(Round3(o.score), if n < QUORUM then Unconfirmed else MostRecent, n);
      Round3IsIdempotent(o.score);
    }
  }

  lemma {:induction false} LabelsPartition(rs: seq<ResolvedNode>)
    requires forall i :: 0 <= i < |rs| ==> rs[i].grade == LabelOf(rs[i].score)
    ensures CountIf(rs, HasLabel(Healthy)) + CountIf(rs, HasLabel(Degraded)) + CountIf(rs, HasLabel(Impaired))
      + CountIf(rs, HasLabel(Critical)) == |rs|
    ensures CountIf(rs, HasLabel(Offline)) == 0
  {
    if rs != [] {
      LabelsPartition(rs[..|rs| - 1]);
    }
  }

  lemma MedianIsAScore(rs: seq<ResolvedNode>, p: nat) returns (i: nat)
    requires rs != []
    ensures i < |rs| && rs[i].score == Percentile(Sort(Scores(rs), RealLeq), p)
  {
    var sorted := Sort(Scores(rs), RealLeq);
    SortPermutes(Scores(rs), RealLeq);
    SameMembers(sorted, Scores(rs));
    assert sorted[RankIndex(|sorted|, p)] in Scores(rs);
    i :| 0 <= i < |rs| && Scores(rs)[i] == Percentile(sorted, p);
  }

  lemma AggregateOfResolved(rs: seq<ResolvedNode>, h: FederatedHealth)
    requires rs != [] && Aggregates(rs, h)
    requires forall i :: 0 <= i < |rs| ==> Round3(rs[i].score) == rs[i].score && rs[i].grade == LabelOf(rs[i].score)
    ensures exists i :: 0 <= i < |rs| && rs[i].score == h.score
    ensures h.grade == if h.sample < MIN_MESH_SAMPLE then InsufficientSample else LabelOf(h.score)
    ensures h.p10.Some? && h.p10.value <= h.score
    ensures var d := h.distribution; d.healthy + d.degraded + d.impaired + d.critical == h.sample && d.offline == 0
  {
    var m := MedianIsAScore(rs, 50);
    var w := MedianIsAScore(rs, 10);
    LabelsPartition(rs);
    RealOrder();
    SortSorts(Scores(rs), RealLeq);
    PercentileGrows(Sort(Scores(rs), RealLeq), 10, 50);
    assert rs[m].score == h.score;
  }

  lemma RanksOfPercentile(s: seq<real>, p: nat)
    requires s != [] && 0 < p <= 100
    ensures var v := Percentile(Sort(s, RealLeq), p);
            100 * CountIf(s, AtMost(v)) >= p * |s| > 100 * CountIf(s, Below(v))
  {
    var sorted := Sort(s, RealLeq);
    var v := Percentile(sorted, p);
    RealOrder();
    SortSorts(s, RealLeq);
    SortPermutes(s, RealLeq);
    PercentileIsNearestRank(sorted, p);
    CountIfForgetsOrder(sorted, s, AtMost(v));
    CountIfForgetsOrder(sorted, s, Below(v));
  }

  // The majority's score: at least half of its votes are at most that, and less than half
  // are below.
  lemma MajorityScoreIsTheMedian(obs: seq<Observation>, l: Label)
    requires Wins(obs, l)
    ensures var v := MajorityScore(obs, l);
            2 * CountIf(Votes(obs, l), AtMost(v)) >= |Votes(obs, l)| > 2 * CountIf(Votes(obs, l), Below(v))
  {
    RanksOfPercentile(Votes(obs, l), 50);
  }

  // The figures of the mesh, in terms of its nodes' scores: the median, the worst decile
  // and the mean, and how many nodes are contested or unconfirmed.
  lemma MeshFiguresMean(obs: seq<Observation>, nodes: seq<string>, rs: seq<ResolvedNode>, h: FederatedHealth)
    requires obs != [] && ResolvesAll(obs, nodes, rs) && Aggregates(rs, h)
    ensures 2 * CountIf(Scores(rs), AtMost(h.score)) >= |rs| > 2 * CountIf(Scores(rs), Below(h.score))
    ensures h.p10.Some?
      && 10 * CountIf(Scores(rs), AtMost(h.p10.value)) >= |rs| > 10 * CountIf(Scores(rs), Below(h.p10.value))
    ensures h.mean.Some? && -0.0005 <= h.mean.value - Sum(Sort(Scores(rs), RealLeq)) / |rs| as real <= 0.0005
    ensures h.contested == CountIf(rs, (r: ResolvedNode) => r.contested)
    ensures h.unconfirmed == CountIf(rs, (r: ResolvedNode) => r.resolution == Unconfirmed)
  {
    NoRowsNoNodes(obs, nodes, rs);
    ResolvedScores(obs, nodes, rs);
    RanksOfPercentile(Scores(rs), 50);
    RanksOfPercentile(Scores(rs), 10);
    var _ := MedianIsAScore(rs, 50);
    var _ := MedianIsAScore(rs, 10);
    SameCounts(rs, IsContested(), (r: ResolvedNode) => r.contested);
    SameCounts(rs, IsUnconfirmed(), (r: ResolvedNode) => r.resolution == Unconfirmed);
  }

  lemma {:induction false} SameCounts<T>(s: seq<T>, p: T -> bool, q: T -> bool)
    requires forall x :: p(x) == q(x)
    ensures CountIf(s, p) == CountIf(s, q)
  {
    if s != [] {
      SameCounts(s[..|s| - 1], p, q);
    }
  }

  // The mesh score is the score of one of its nodes and carries that score's label, every
  // known node is counted under one label, and the worst decile is no better.
  lemma MeshHealthIsConsistent(obs: seq<Observation>, h: FederatedHealth)
    requires obs != [] && Federates(obs, h)
    ensures exists n, r :: n in Nodes(obs) && Resolves(RowsOf(obs, n), r) && r.score == h.score
    ensures h.grade == if h.sample < 3 then InsufficientSample else LabelOf(h.score)
    ensures h.p10.Some? && h.p10.value <= h.score
    ensures var d := h.distribution; d.healthy + d.degraded + d.impaired + d.critical == h.sample && d.offline == 0
    ensures h.sample == |Nodes(obs)|
  {
    var nodes: seq<string>, rs: seq<ResolvedNode> :| ResolvesAll(obs, nodes, rs) && Aggregates(rs, h);
    NoRowsNoNodes(obs, nodes, rs);
    ResolvedScores(obs, nodes, rs);
    AggregateOfResolved(rs, h);
    var i :| 0 <= i < |rs| && rs[i].score == h.score;
    assert nodes[i] in Nodes(obs) && Resolving(obs)(nodes[i], rs[i]);
  }

  lemma ResolvedScores(obs: seq<Observation>, nodes: seq<string>, rs: seq<ResolvedNode>)
    requires ResolvesAll(obs, nodes, rs)
    ensures forall i :: 0 <= i < |rs| ==> Round3(rs[i].score) == rs[i].score && rs[i].grade == LabelOf(rs[i].score)
    ensures |rs| == |Nodes(obs)|
  {
    forall i | 0 <= i < |rs|
      ensures Round3(rs[i].score) == rs[i].score && rs[i].grade == LabelOf(rs[i].score)
    {
      RowsOfMembers(obs, nodes[i]);
      assert nodes[i] in Nodes(obs) && Resolving(obs)(nodes[i], rs[i]);
      ResolvedScore(RowsOf(obs, nodes[i]), rs[i]);
    }
    DistinctCard(nodes);
    assert (set n | n in nodes) == Nodes(obs);
  }
}
