// One node's health from its evaluators' observations, and the mesh's from its nodes'.
module MeshHealth {
  import opened Text
  import opened Sorting
  import opened HealthStore
  import opened HealthScores

  const QUORUM := 3
  const MIN_MESH_SAMPLE := 3

  datatype Resolution = Majority | MostRecent | Unconfirmed | NoEvaluators

  datatype ResolvedNode = ResolvedNode(score: real, grade: Label, resolution: Resolution, evaluators: nat,
    contested: bool)

  // ---- One node ----

  ghost function Evaluators(obs: seq<Observation>): set<string> {
    set o | o in obs :: o.evaluator
  }

  ghost predicate OneRowPerEvaluator(obs: seq<Observation>) {
    forall i, j :: 0 <= i < j < |obs| ==> obs[i].evaluator != obs[j].evaluator
  }

  // The last of the newest rows: `max_by_key` keeps the last maximum.
  ghost predicate Freshest(obs: seq<Observation>, o: Observation) {
    exists i :: FreshestAt(obs, i) && obs[i] == o
  }

  ghost predicate FreshestAt(obs: seq<Observation>, i: int) {
    && 0 <= i < |obs|
    && (forall j :: 0 <= j < |obs| ==> obs[j].at <= obs[i].at)
    && (forall j :: i < j < |obs| ==> obs[j].at < obs[i].at)
  }

  // The scores voting for a label, in row order.
  ghost function Votes(obs: seq<Observation>, l: Label): (v: seq<real>)
    ensures |v| <= |obs|
  {
    if obs == [] then []
    else
      var n := |obs| - 1;
      Votes(obs[..n], l) + if LabelOf(obs[n].score) == l then [obs[n].score] else []
  }

  ghost function Needed(obs: seq<Observation>): nat {
    |Evaluators(obs)| / 2 + 1
  }

  ghost predicate Wins(obs: seq<Observation>, l: Label) {
    |Votes(obs, l)| >= Needed(obs)
  }

  ghost predicate HasMajority(obs: seq<Observation>) {
    exists l :: Wins(obs, l)
  }

  ghost function MajorityScore(obs: seq<Observation>, l: Label): real {
    Percentile(Sort(Votes(obs, l), RealLeq), 50)
  }

  function NodeOf(score: real, resolution: Resolution, evaluators: nat): ResolvedNode {
    ResolvedNode(score, LabelOf(score), resolution, evaluators, resolution == MostRecent)
  }

  // `r` is a resolution of the rows `obs`: whichever winning bucket the hash map shows first.
  ghost predicate Resolves(obs: seq<Observation>, r: ResolvedNode) {
    var n := |Evaluators(obs)|;
    if obs == [] then r == ResolvedNode(0.0, Unavailable, NoEvaluators, 0, false)
    else if n < QUORUM then exists o :: Freshest(obs, o) && r == NodeOf(Round3(o.score), Unconfirmed, n)
    else if HasMajority(obs) then exists l :: Wins(obs, l) && r == NodeOf(Round3(MajorityScore(obs, l)), Majority, n)
    else exists o :: Freshest(obs, o) && r == NodeOf(Round3(o.score), MostRecent, n)
  }

  ghost predicate BucketsHold(buckets: map<Label, seq<real>>, obs: seq<Observation>) {
    && (forall l :: l in buckets ==> buckets[l] == Votes(obs, l))
    && (forall l :: l !in buckets ==> Votes(obs, l) == [])
  }

  method FillBuckets(obs: seq<Observation>) returns (buckets: map<Label, seq<real>>)
    ensures BucketsHold(buckets, obs)
  {
    buckets := map[];
    for i := 0 to |obs|
      invariant BucketsHold(buckets, obs[..i])
    {
      assert obs[..i + 1][..i] == obs[..i];
      var l := LabelOf(obs[i].score);
      var bucket := if l in buckets then buckets[l] else [];
      buckets := buckets[l := bucket + [obs[i].score]];
    }
    assert obs[..|obs|] == obs;
  }

  method FindFreshest(obs: seq<Observation>) returns (o: Observation)
    requires obs != []
    ensures Freshest(obs, o)
  {
    o := obs[0];
    ghost var at := 0;
    for i := 1 to |obs|
      invariant FreshestAt(obs[..i], at) && obs[at] == o
    {
      if obs[i].at >= o.at {
        o, at := obs[i], i;
      }
    }
    assert obs[..|obs|] == obs;
  }

  method ResolveNode(obs: seq<Observation>) returns (r: ResolvedNode)
    ensures Resolves(obs, r)
  {
    var dids := set o | o in obs :: o.evaluator;
    if |dids| == 0 {
      assert obs != [] ==> obs[0].evaluator in dids;
      return ResolvedNode(0.0, Unavailable, NoEvaluators, 0, false);
    }
    var freshest := FindFreshest(obs);
    if |dids| < QUORUM {
      return NodeOf(Round3(freshest.score), Unconfirmed, |dids|);
    }
    var buckets := FillBuckets(obs);
    var needed := |dids| / 2 + 1;
    var winners := set l | l in buckets && |buckets[l]| >= needed;
    if winners != {} {
      var l :| l in winners;
      assert Wins(obs, l);
      return NodeOf(Round3(Percentile(Sort(buckets[l], RealLeq), 50)), Majority, |dids|);
    }
    assert forall l :: Wins(obs, l) ==> l in winners;
    r := NodeOf(Round3(freshest.score), MostRecent, |dids|);
  }

  // ---- The mesh ----

  datatype Distribution = Distribution(healthy: nat, degraded: nat, impaired: nat, critical: nat, offline: nat)

  datatype FederatedHealth = FederatedHealth(score: real, grade: Label, mean: Option<real>, p10: Option<real>,
    distribution: Distribution, sample: nat, contested: nat, unconfirmed: nat)

  const UNAVAILABLE := FederatedHealth(0.0, Unavailable, None, None, Distribution(0, 0, 0, 0, 0), 0, 0, 0)

  function HasLabel(l: Label): ResolvedNode -> bool {
    (r: ResolvedNode) => r.grade == l
  }

  function IsContested(): ResolvedNode -> bool {
    (r: ResolvedNode) => r.contested
  }

  function IsUnconfirmed(): ResolvedNode -> bool {
    (r: ResolvedNode) => r.resolution == Unconfirmed
  }

  function ScoreOf(): ResolvedNode -> real {
    (r: ResolvedNode) => r.score
  }

  function Scores(rs: seq<ResolvedNode>): seq<real> {
    Mapped(rs, ScoreOf())
  }

  ghost function Sum(s: seq<real>): real {
    if s == [] then 0.0 else Sum(s[..|s| - 1]) + s[|s| - 1]
  }

  ghost predicate Tallied(rs: seq<ResolvedNode>, d: Distribution) {
    && d.healthy == CountIf(rs, HasLabel(Healthy)) && d.degraded == CountIf(rs, HasLabel(Degraded))
    && d.impaired == CountIf(rs, HasLabel(Impaired)) && d.critical == CountIf(rs, HasLabel(Critical))
    && d.offline == CountIf(rs, HasLabel(Offline))
  }

  // `h` is the aggregate of the resolved nodes `rs`.
  ghost predicate Aggregates(rs: seq<ResolvedNode>, h: FederatedHealth) {
    if rs == [] then h == UNAVAILABLE
    else
      var scores := Sort(Scores(rs), RealLeq);
      var median := Percentile(scores, 50);
      && h.sample == |rs| && h.score == Round3(median)
      && h.grade == (if |rs| < MIN_MESH_SAMPLE then InsufficientSample else LabelOf(median))
      && h.mean == Some(Round3(Sum(scores) / |rs| as real)) && h.p10 == Some(Round3(Percentile(scores, 10)))
      && Tallied(rs, h.distribution)
      && h.contested == CountIf(rs, IsContested()) && h.unconfirmed == CountIf(rs, IsUnconfirmed())
  }

  // The rows of one node, in the order they came.
  ghost function RowsOf(obs: seq<Observation>, node: string): seq<Observation> {
    if obs == [] then []
    else
      var n := |obs| - 1;
      RowsOf(obs[..n], node) + if obs[n].node == node then [obs[n]] else []
  }

  ghost function Nodes(obs: seq<Observation>): set<string> {
    set o | o in obs :: o.node
  }

  ghost predicate Each(ok: (string, ResolvedNode) -> bool, nodes: seq<string>, rs: seq<ResolvedNode>) {
    |rs| == |nodes| && forall i :: 0 <= i < |rs| ==> ok(nodes[i], rs[i])
  }

  ghost function Resolving(obs: seq<Observation>): (string, ResolvedNode) -> bool {
    (node: string, r: ResolvedNode) => Resolves(RowsOf(obs, node), r)
  }

  // The nodes of `obs`, each resolved once, in some order.
  ghost predicate ResolvesAll(obs: seq<Observation>, nodes: seq<string>, rs: seq<ResolvedNode>) {
    Distinct(nodes) && (forall n :: n in nodes <==> n in Nodes(obs)) && Each(Resolving(obs), nodes, rs)
  }

  // `h` is a federated health of the rows `obs`.
  ghost predicate Federates(obs: seq<Observation>, h: FederatedHealth) {
    exists nodes, rs :: ResolvesAll(obs, nodes, rs) && Aggregates(rs, h)
  }

  ghost predicate GroupsHold(groups: map<string, seq<Observation>>, obs: seq<Observation>) {
    groups.Keys == Nodes(obs) && forall n :: n in groups ==> groups[n] == RowsOf(obs, n)
  }

  lemma {:induction false} RowsOfStranger(obs: seq<Observation>, node: string)
    requires node !in Nodes(obs)
    ensures RowsOf(obs, node) == []
  {
    if obs != [] {
      var n := |obs| - 1;
      assert obs[n].node in Nodes(obs);
      assert forall o :: o in obs[..n] ==> o in obs;
      RowsOfStranger(obs[..n], node);
    }
  }

  lemma NodesGrow(obs: seq<Observation>, i: nat)
    requires i < |obs|
    ensures Nodes(obs[..i + 1]) == Nodes(obs[..i]) + {obs[i].node}
  {
    assert obs[..i + 1] == obs[..i] + [obs[i]];
  }

  method GroupByNode(obs: seq<Observation>) returns (groups: map<string, seq<Observation>>)
    ensures GroupsHold(groups, obs)
  {
    groups := map[];
    for i := 0 to |obs|
      invariant GroupsHold(groups, obs[..i])
    {
      NodesGrow(obs, i);
      assert obs[..i + 1][..i] == obs[..i];
      var o := obs[i];
      if o.node !in groups {
        RowsOfStranger(obs[..i], o.node);
      }
      var group := if o.node in groups then groups[o.node] else [];
      groups := groups[o.node := group + [o]];
    }
    assert obs[..|obs|] == obs;
  }

  lemma NoRowsNoNodes(obs: seq<Observation>, nodes: seq<string>, rs: seq<ResolvedNode>)
    requires ResolvesAll(obs, nodes, rs)
    ensures rs == [] <==> obs == []
  {
    if obs != [] {
      assert obs[0].node in nodes;
    }
    assert nodes != [] ==> nodes[0] in nodes;
  }

  // The hash map is walked in an arbitrary order; `ok` says what resolving a group gives.
  method ResolveGroups(groups: map<string, seq<Observation>>, ghost ok: (string, ResolvedNode) -> bool)
    returns (rs: seq<ResolvedNode>, ghost nodes: seq<string>)
    requires forall n, r :: n in groups && Resolves(groups[n], r) ==> ok(n, r)
    ensures Distinct(nodes) && (forall n :: n in nodes <==> n in groups) && Each(ok, nodes, rs)
  {
    rs, nodes := [], [];
    var rest := groups.Keys;
    while rest != {}
      invariant rest <= groups.Keys && Distinct(nodes) && Each(ok, nodes, rs)
      invariant forall n :: n in nodes <==> n in groups.Keys - rest
      decreases |rest|
    {
      var node :| node in rest;
      rest := rest - {node};
      var r := ResolveNode(groups[node]);
      AppendNew(nodes, node);
      rs, nodes := rs + [r], nodes + [node];
    }
  }

  method Distribute(rs: seq<ResolvedNode>) returns (d: Distribution, contested: nat, unconfirmed: nat)
    ensures Tallied(rs, d) && contested == CountIf(rs, IsContested()) && unconfirmed == CountIf(rs, IsUnconfirmed())
  {
    d, contested, unconfirmed := Distribution(0, 0, 0, 0, 0), 0, 0;
    for i := 0 to |rs|
      invariant Tallied(rs[..i], d)
      invariant contested == CountIf(rs[..i], IsContested()) && unconfirmed == CountIf(rs[..i], IsUnconfirmed())
    {
      assert rs[..i + 1][..i] == rs[..i];
      var r := rs[i];
      match r.grade {
        case Healthy => d := d.(healthy := d.healthy + 1);
        case Degraded => d := d.(degraded := d.degraded + 1);
        case Impaired => d := d.(impaired := d.impaired + 1);
        case Critical => d := d.(critical := d.critical + 1);
        case Offline => d := d.(offline := d.offline + 1);
        case _ =>
      }
      if r.contested {
        contested := contested + 1;
      }
      if r.resolution == Unconfirmed {
        unconfirmed := unconfirmed + 1;
      }
    }
    assert rs[..|rs|] == rs;
  }

  method Total(s: seq<real>) returns (t: real)
    ensures t == Sum(s)
  {
    t := 0.0;
    for i := 0 to |s|
      invariant t == Sum(s[..i])
    {
      assert s[..i + 1][..i] == s[..i];
      t := t + s[i];
    }
    assert s[..|s|] == s;
  }

  method FederatedMeshHealth(obs: seq<Observation>) returns (h: FederatedHealth)
    ensures Federates(obs, h)
  {
    var groups := GroupByNode(obs);
    var rs;
    ghost var nodes;
    rs, nodes := ResolveGroups(groups, Resolving(obs));
    assert ResolvesAll(obs, nodes, rs);
    NoRowsNoNodes(obs, nodes, rs);
    if obs == [] {
      assert Aggregates(rs, UNAVAILABLE);
      return UNAVAILABLE;
    }
    var scores := Sort(Scores(rs), RealLeq);
    SortPermutes(Scores(rs), RealLeq);
    var median := Percentile(scores, 50);
    var total := Total(scores);
    var d, contested, unconfirmed := Distribute(rs);
    h := FederatedHealth(Round3(median), if |scores| < MIN_MESH_SAMPLE then InsufficientSample else LabelOf(median),
      Some(Round3(total / |scores| as real)), Some(Round3(Percentile(scores, 10))), d,
      |scores|, contested, unconfirmed);
    assert Aggregates(rs, h);
  }
}
