// Admission and ranking of discovery candidates. Scores are exact reals.
module Ranking {
  import opened Text
  import opened Sorting
  import opened TextSorting
  import opened Reals

  datatype Node = Node(id: string, cip: Option<string>, healthModels: Option<seq<string>>, models: seq<string>,
    backend: Option<string>, reputation: real, tasks: nat, availability: real, load: real, activeJobs: nat,
    maxConcurrent: nat, region: string, pricing: Option<real>, sdkVersion: Option<string>,
    publicKey: Option<string>, score: real)

  datatype Query = Query(model: Option<string>, qos: Option<string>, region: Option<string>, minReputation: real,
    limit: nat, cipCapable: bool, sdkCurrent: Option<string> -> bool)

  function ModelsOf(n: Node): seq<string> {
    if n.healthModels.Some? then n.healthModels.value else n.models
  }

  predicate Eligible(n: Node, q: Query) {
    if n.healthModels == Some([]) || n.backend == Some("draining") || n.backend == Some("unavailable") then false
    else if q.model.Some? && q.model.value !in ModelsOf(n) then false
    else if q.qos == Some("realtime") && (n.tasks < 1000 || n.reputation < 0.8) then false
    else if q.qos == Some("interactive") && n.tasks < 100 then false
    else q.minReputation <= 0.0 || n.reputation >= q.minReputation
  }

  predicate Admitted(n: Node, q: Query) {
    (!q.cipCapable || n.cip == Some("CIP-Provider")) && n.healthModels != Some([]) && Eligible(n, q)
  }

  function Flag(b: bool): real { if b then 1.0 else 0.0 }

  function Capacity(n: Node): real {
    if n.maxConcurrent > 0 then Max(1.0 - n.activeJobs as real / n.maxConcurrent as real, 0.0) else 0.0
  }

  function RegionScore(n: Node, q: Query): real {
    if q.region.None? then 0.5 else Flag(q.region.value == n.region)
  }

  function PriceScore(n: Node): real {
    if n.pricing.None? then 0.5 else Max(1.0 - n.pricing.value / 10.0, 0.0)
  }

  function Readiness(n: Node, q: Query): real {
    Max(1.0 - (if q.sdkCurrent(n.sdkVersion) then 0.0 else 0.08) - (if n.publicKey.Some? then 0.0 else 0.07), 0.75)
  }

  function BaseScore(n: Node, q: Query): real {
    var load := 1.0 - Min(n.load, 1.0);
    if q.model.Some? then
      0.25 * n.availability + 0.20 * load + 0.15 * Capacity(n) + 0.10 * RegionScore(n, q) + 0.10 * n.reputation
        + 0.10 * PriceScore(n) + 0.10 * Flag(q.model.value in ModelsOf(n))
    else 0.35 * n.availability + 0.28 * load + 0.18 * Capacity(n) + 0.09 * RegionScore(n, q) + 0.10 * n.reputation
  }

  function Times(x: real, y: real): real { x * y }

  function RankingScore(n: Node, q: Query): real {
    Times(BaseScore(n, q), Readiness(n, q))
  }

  // ---- Scores ----

  ghost predicate InRange(n: Node) {
    && 0.0 <= n.availability <= 1.0 && n.load >= 0.0 && 0.0 <= n.reputation <= 1.0
    && (n.pricing.Some? ==> n.pricing.value >= 0.0)
  }

  lemma CapacityRange(n: Node)
    ensures 0.0 <= Capacity(n) <= 1.0
  {
    if n.maxConcurrent > 0 {
      assert n.activeJobs as real / n.maxConcurrent as real >= 0.0;
    }
  }

  lemma ProductsGrow(x: real, y: real, x': real, y': real)
    requires 0.0 <= x <= x' && 0.0 <= y <= y'
    ensures 0.0 <= Times(x, y) <= Times(x', y')
  {
    assert x' * y' == x * y + (x' - x) * y + x' * (y' - y);
  }

  lemma ScoresAreInUnit(n: Node, q: Query)
    requires InRange(n)
    ensures 0.0 <= RankingScore(n, q) <= 1.0
  {
    CapacityRange(n);
    ProductsGrow(BaseScore(n, q), Readiness(n, q), 1.0, 1.0);
  }

  // At least the same share of its job slots is free; a node without free slots has none.
  ghost predicate Freer(m: Node, n: Node) {
    || n.activeJobs >= n.maxConcurrent
    || (m.maxConcurrent > 0 && m.activeJobs * n.maxConcurrent <= n.activeJobs * m.maxConcurrent)
  }

  // What a node asks for; one that does not say ranks like one that asks for 5.
  function Price(n: Node): real {
    if n.pricing.Some? then n.pricing.value else 5.0
  }

  // At least as good in every signal that is ranked: no less available, no more loaded, as
  // free, as reputed, as cheap, in the wanted region and with the wanted model if the other
  // is, with a current SDK and a public key if the other has them.
  ghost predicate AsGood(m: Node, n: Node, q: Query) {
    && m.availability >= n.availability && m.load <= n.load && Freer(m, n) && m.reputation >= n.reputation
    && (q.region == Some(n.region) ==> m.region == n.region) && Price(m) <= Price(n)
    && (q.model.Some? && q.model.value in ModelsOf(n) ==> q.model.value in ModelsOf(m))
    && (q.sdkCurrent(n.sdkVersion) ==> q.sdkCurrent(m.sdkVersion)) && (n.publicKey.Some? ==> m.publicKey.Some?)
  }

  lemma FreerHasCapacity(m: Node, n: Node)
    requires Freer(m, n)
    ensures Capacity(m) >= Capacity(n)
  {
    CapacityRange(m);
    if n.activeJobs < n.maxConcurrent {
      ProductsAgree(m.activeJobs, n.maxConcurrent);
      ProductsAgree(n.activeJobs, m.maxConcurrent);
      SharesCompare(m.activeJobs as real, m.maxConcurrent as real, n.activeJobs as real, n.maxConcurrent as real);
    } else if n.maxConcurrent > 0 {
      FullHasNone(n.activeJobs as real, n.maxConcurrent as real);
    }
  }

  lemma ProductsAgree(x: nat, y: nat)
    ensures (x * y) as real == Times(x as real, y as real)
  {
  }

  lemma FullHasNone(a: real, b: real)
    requires a >= b > 0.0
    ensures a / b >= 1.0
  {
  }

  lemma SharesCompare(a: real, b: real, c: real, d: real)
    requires b > 0.0 && d > 0.0 && Times(a, d) <= Times(c, b)
    ensures a / b <= c / d
  {
    var x, y := a / b, c / d;
    assert a == x * b && c == y * d;
    assert Times(a, d) - Times(c, b) == Times(x - y, b * d);
    SignOfFactor(x - y, b * d);
  }

  lemma SignOfFactor(u: real, w: real)
    requires w > 0.0 && Times(u, w) <= 0.0
    ensures u <= 0.0
  {
  }

  lemma SignalsAreMonotone(m: Node, n: Node, q: Query)
    requires AsGood(m, n, q)
    ensures Capacity(m) >= Capacity(n) && RegionScore(m, q) >= RegionScore(n, q) && PriceScore(m) >= PriceScore(n)
  {
    FreerHasCapacity(m, n);
  }

  lemma BaseIsMonotone(m: Node, n: Node, q: Query)
    requires InRange(m) && InRange(n) && AsGood(m, n, q)
    ensures 0.0 <= BaseScore(n, q) <= BaseScore(m, q)
  {
    CapacityRange(n);
    SignalsAreMonotone(m, n, q);
  }

  lemma ReadinessIsMonotone(m: Node, n: Node, q: Query)
    requires AsGood(m, n, q)
    ensures 0.0 <= Readiness(n, q) <= Readiness(m, q)
  {
  }

  // A node at least as good in every signal never scores less.
  lemma ScoresAreMonotone(m: Node, n: Node, q: Query)
    requires InRange(m) && InRange(n) && AsGood(m, n, q)
    ensures RankingScore(m, q) >= RankingScore(n, q)
  {
    BaseIsMonotone(m, n, q);
    ReadinessIsMonotone(m, n, q);
    ProductsGrow(BaseScore(n, q), Readiness(n, q), BaseScore(m, q), Readiness(m, q));
  }

  // What each signal is worth on its own: a step `x` in one signal, all others being equal,
  // moves the score before readiness by its weight.
  lemma MeasuresWeigh(n: Node, q: Query, x: real)
    ensures var w := if q.model.Some? then 0.25 else 0.35;
            BaseScore(n.(availability := n.availability + x), q) == BaseScore(n, q) + w * x
    ensures n.load + x <= 1.0 && n.load <= 1.0 ==>
              var w := if q.model.Some? then 0.20 else 0.28;
              BaseScore(n.(load := n.load + x), q) == BaseScore(n, q) - w * x
    ensures BaseScore(n.(reputation := n.reputation + x), q) == BaseScore(n, q) + 0.10 * x
    ensures q.model.None? ==> BaseScore(n.(pricing := Some(x)), q) == BaseScore(n, q)
    ensures q.model.Some? && 0.0 <= x <= 10.0
      ==> BaseScore(n.(pricing := Some(x)), q) == BaseScore(n.(pricing := Some(0.0)), q) - 0.01 * x
  {
  }

  // An idle node against a full one, and one in the wanted region against one elsewhere.
  lemma ChoicesWeigh(n: Node, q: Query)
    ensures n.maxConcurrent > 0 ==>
              var w := if q.model.Some? then 0.15 else 0.18;
              BaseScore(n.(activeJobs := 0), q) == BaseScore(n.(activeJobs := n.maxConcurrent), q) + w
    ensures q.region.Some? && q.region.value != n.region ==>
              var w := if q.model.Some? then 0.10 else 0.09;
              BaseScore(n.(region := q.region.value), q) == BaseScore(n, q) + w
  {
    if n.maxConcurrent > 0 {
      CapacityEnds(n);
    }
  }

  lemma CapacityEnds(n: Node)
    requires n.maxConcurrent > 0
    ensures Capacity(n.(activeJobs := 0)) == 1.0 && Capacity(n.(activeJobs := n.maxConcurrent)) == 0.0
  {
    Shares(n.maxConcurrent as real);
  }

  lemma Shares(b: real)
    requires b > 0.0
    ensures 0.0 / b == 0.0 && b / b == 1.0
  {
  }

  // The best node there can be scores 1; readiness costs 0.08 for an old SDK and 0.07 for a
  // missing key.
  lemma BestScores(n: Node, q: Query)
    requires n.availability == 1.0 && n.load == 0.0 && n.activeJobs == 0 < n.maxConcurrent && n.reputation == 1.0
    requires q.region == Some(n.region) && n.pricing == Some(0.0) && (q.model.Some? ==> q.model.value in ModelsOf(n))
    ensures BaseScore(n, q) == 1.0
    ensures RankingScore(n, q) ==
            1.0 - (if q.sdkCurrent(n.sdkVersion) then 0.0 else 0.08) - (if n.publicKey.Some? then 0.0 else 0.07)
  {
    Shares(n.maxConcurrent as real);
  }

  // Who may be listed at all.
  lemma AdmittedExactly(n: Node, q: Query)
    ensures Admitted(n, q) <==>
            && (q.cipCapable ==> n.cip == Some("CIP-Provider"))
            && (n.healthModels.Some? ==> n.healthModels.value != [])
            && n.backend != Some("draining") && n.backend != Some("unavailable")
            && (q.model.Some? && n.healthModels.Some? ==> q.model.value in n.healthModels.value)
            && (q.model.Some? && n.healthModels.None? ==> q.model.value in n.models)
            && (q.qos == Some("realtime") ==> n.tasks >= 1000 && n.reputation >= 0.8)
            && (q.qos == Some("interactive") ==> n.tasks >= 100)
            && (q.minReputation > 0.0 ==> n.reputation >= q.minReputation)
  {
  }

  // ---- Selection ----

  // Higher scores first, ties by id.
  predicate RankLeq(m: Node, n: Node) {
    m.score > n.score || (m.score == n.score && Leq(m.id, n.id))
  }

  predicate Before(m: Node, n: Node) {
    m.score > n.score || (m.score == n.score && Less(m.id, n.id))
  }

  function Scored(n: Node, q: Query): Node {
    n.(score := RankingScore(n, q))
  }

  function Candidates(nodes: seq<Node>, q: Query): seq<Node> {
    if nodes == [] then []
    else
      var last := nodes[|nodes| - 1];
      Candidates(nodes[..|nodes| - 1], q) + if Admitted(last, q) then [Scored(last, q)] else []
  }

  ghost function Selected(nodes: seq<Node>, q: Query): seq<Node> {
    var ranked := Sort(Candidates(nodes, q), RankLeq);
    if |ranked| <= q.limit then ranked else ranked[..q.limit]
  }

  method SelectAndRank(nodes: seq<Node>, q: Query) returns (selected: seq<Node>)
    ensures selected == Selected(nodes, q)
  {
    selected := [];
    for i := 0 to |nodes|
      invariant selected == Candidates(nodes[..i], q)
    {
      assert nodes[..i + 1][..i] == nodes[..i];
      var node := nodes[i];
      if (!q.cipCapable || node.cip == Some("CIP-Provider")) && node.healthModels != Some([]) && Eligible(node, q) {
        node := node.(score := RankingScore(node, q));
        selected := selected + [node];
      }
    }
    assert nodes[..|nodes|] == nodes;
    selected := Sort(selected, RankLeq);
    if |selected| > q.limit {
      selected := selected[..q.limit];
    }
  }

  ghost predicate DistinctIds(nodes: seq<Node>) {
    forall i, j :: 0 <= i < j < |nodes| ==> nodes[i].id != nodes[j].id
  }

  lemma RankOrder()
    ensures TotalPreorder(RankLeq)
  {
    TextOrder();
  }

  lemma {:induction false} CandidateOf(nodes: seq<Node>, q: Query, c: Node)
    ensures c in Candidates(nodes, q) <==> exists n :: n in nodes && Admitted(n, q) && c == Scored(n, q)
  {
    if nodes != [] {
      var k := |nodes| - 1;
      CandidateOf(nodes[..k], q, c);
      assert nodes == nodes[..k] + [nodes[k]];
      assert forall n :: n in nodes <==> n in nodes[..k] || n == nodes[k];
    }
  }

  lemma {:induction false} CandidatesDistinct(nodes: seq<Node>, q: Query)
    requires DistinctIds(nodes)
    ensures DistinctIds(Candidates(nodes, q))
  {
    if nodes != [] {
      var k := |nodes| - 1;
      CandidatesDistinct(nodes[..k], q);
      forall c | c in Candidates(nodes[..k], q)
        ensures c.id != nodes[k].id
      {
        CandidateOf(nodes[..k], q, c);
      }
    }
  }

  lemma IdsNeverTie(s: seq<Node>)
    requires DistinctIds(s)
    ensures Distinct(s) && NoTies(s, RankLeq)
  {
    forall m, n | m in s && n in s && RankLeq(m, n) && RankLeq(n, m)
      ensures m == n
    {
      LessTrichotomy(m.id, n.id);
      var i :| 0 <= i < |s| && s[i] == m;
      var j :| 0 <= j < |s| && s[j] == n;
      assert s[i].id == s[j].id;
    }
  }

  // The order in which the candidates arrive cannot be seen in the result.
  lemma SelectionForgetsOrder(a: seq<Node>, b: seq<Node>, q: Query)
    requires DistinctIds(a) && DistinctIds(b) && forall n :: n in a <==> n in b
    ensures Selected(a, q) == Selected(b, q)
  {
    var x, y := Candidates(a, q), Candidates(b, q);
    CandidatesDistinct(a, q);
    CandidatesDistinct(b, q);
    IdsNeverTie(x);
    IdsNeverTie(y);
    forall c
      ensures c in x <==> c in y
    {
      CandidateOf(a, q, c);
      CandidateOf(b, q, c);
    }
    DistinctSameMembers(x, y);
    RankOrder();
    SortForgetsOrder(x, y, RankLeq);
  }

  lemma StrictlyRanked(s: seq<Node>)
    requires DistinctIds(s)
    ensures var r := Sort(s, RankLeq);
            |r| == |s| && (forall c :: c in r <==> c in s) && forall i, j :: 0 <= i < j < |r| ==> Before(r[i], r[j])
  {
    var r := Sort(s, RankLeq);
    RankOrder();
    SortSorts(s, RankLeq);
    SortPermutes(s, RankLeq);
    SameMembers(r, s);
    IdsNeverTie(s);
    DistinctPermuted(s, r);
    forall i, j | 0 <= i < j < |r|
      ensures Before(r[i], r[j])
    {
      assert r[i] in s && r[j] in s && r[i] != r[j];
      assert RankLeq(r[i], r[j]);
      if r[i].id == r[j].id {
        assert RankLeq(r[j], r[i]) || r[i].score > r[j].score;
      }
    }
  }

  // What comes back is strictly ordered, is as long as the limit and the candidates allow,
  // consists of admitted nodes under their own scores, and every candidate left out ranks
  // after every one returned.
  lemma SelectionIsTheTop(nodes: seq<Node>, q: Query)
    requires DistinctIds(nodes)
    ensures var r := Selected(nodes, q);
            && |r| == (if |Candidates(nodes, q)| <= q.limit then |Candidates(nodes, q)| else q.limit)
            && (forall i, j :: 0 <= i < j < |r| ==> Before(r[i], r[j]))
            && (forall c :: c in r ==> exists n :: n in nodes && Admitted(n, q) && c == Scored(n, q))
            && (forall n, c :: n in nodes && Admitted(n, q) && Scored(n, q) !in r && c in r ==> Before(c, Scored(n, q)))
  {
    var s := Candidates(nodes, q);
    var ranked, r := Sort(s, RankLeq), Selected(nodes, q);
    CandidatesDistinct(nodes, q);
    StrictlyRanked(s);
    forall c | c in r
      ensures exists n :: n in nodes && Admitted(n, q) && c == Scored(n, q)
    {
      CandidateOf(nodes, q, c);
    }
    forall n, c | n in nodes && Admitted(n, q) && Scored(n, q) !in r && c in r
      ensures Before(c, Scored(n, q))
    {
      CandidateOf(nodes, q, Scored(n, q));
      var i :| 0 <= i < |r| && r[i] == c;
      var j :| 0 <= j < |ranked| && ranked[j] == Scored(n, q);
      assert j >= |r|;
    }
  }
}
