// The replicated table of health observations: per node and evaluator, the newest wins.
module HealthStore {
  import opened Sorting
  import opened Database

  // `score` on the [0,1] wire scale, `at` in milliseconds.
  datatype Observation = Observation(node: string, evaluator: string, score: real, at: int)
  datatype Key = Key(node: string, evaluator: string)
  datatype Row = Row(score: real, at: int)
  type Table = map<Key, Row>

  function KeyOf(o: Observation): Key {
    Key(o.node, o.evaluator)
  }

  function RowOf(o: Observation): Row {
    Row(o.score, o.at)
  }

  // A first observation, or one strictly newer than the stored one.
  predicate Moves(rows: Table, o: Observation) {
    KeyOf(o) !in rows || o.at > rows[KeyOf(o)].at
  }

  ghost function Stored(rows: Table, o: Observation): Table {
    if Moves(rows, o) then rows[KeyOf(o) := RowOf(o)] else rows
  }

  class Replica {
    var rows: Table

    constructor ()
      ensures rows == map[]
    {
      rows := map[];
    }

    // `matchCounts`: whether the driver reports a matched but unchanged row as affected.
    method UpsertHealthObservation(o: Observation, fault: Fault, matchCounts: bool) returns (affected: bool)
      modifies this
      ensures rows == if TakesEffect(fault) then Stored(old(rows), o) else old(rows)
      ensures affected ==> fault == NoFault && KeyOf(o) in rows && rows[KeyOf(o)].at >= o.at
      ensures fault == NoFault ==> (affected <==> matchCounts || rows != old(rows))
    {
      if !TakesEffect(fault) {
        return false;
      }
      var k := KeyOf(o);
      if k !in rows {
        rows := rows[k := RowOf(o)];
        return fault == NoFault;
      }
      var row := rows[k];
      var score := if o.at > row.at then o.score else row.score;
      var at := if o.at > row.at then o.at else row.at;
      affected := fault == NoFault && (matchCounts || o.at > row.at);
      rows := rows[k := Row(score, at)];
    }

    method AllHealthObservations() returns (obs: seq<Observation>)
      ensures Listing(rows, obs)
    {
      obs := [];
      var rest := rows.Keys;
      while rest != {}
        invariant rest <= rows.Keys && Distinct(obs)
        invariant forall o :: o in obs <==> KeyOf(o) in rows.Keys - rest && rows[KeyOf(o)] == RowOf(o)
        decreases |rest|
      {
        var k :| k in rest;
        rest := rest - {k};
        var o := Observation(k.node, k.evaluator, rows[k].score, rows[k].at);
        AppendNew(obs, o);
        obs := obs + [o];
      }
    }
  }

  // The table's rows, each once, in whatever order a SELECT without ORDER BY gives them.
  ghost predicate Listing(rows: Table, obs: seq<Observation>) {
    Distinct(obs) && forall o :: o in obs <==> KeyOf(o) in rows && rows[KeyOf(o)] == RowOf(o)
  }

  // What an empty table becomes when the observations of `s` are stored in turn.
  ghost function Replay(s: seq<Observation>): Table {
    if s == [] then map[] else Stored(Replay(s[..|s| - 1]), s[|s| - 1])
  }

  // The first of the newest observations under a key.
  ghost predicate Winner(s: seq<Observation>, k: Key, i: int) {
    && 0 <= i < |s| && KeyOf(s[i]) == k
    && (forall j :: 0 <= j < |s| && KeyOf(s[j]) == k ==> s[j].at <= s[i].at)
    && (forall j :: 0 <= j < i && KeyOf(s[j]) == k ==> s[j].at < s[i].at)
  }

  lemma {:induction false} ReplayedKeys(s: seq<Observation>, k: Key)
    ensures k in Replay(s) <==> exists i :: 0 <= i < |s| && KeyOf(s[i]) == k
  {
    if s != [] {
      var n := |s| - 1;
      ReplayedKeys(s[..n], k);
      if exists i :: 0 <= i < n && KeyOf(s[i]) == k {
        var i :| 0 <= i < n && KeyOf(s[i]) == k;
        assert s[..n][i] == s[i];
      }
    }
  }

  lemma WinnerStays(s: seq<Observation>, k: Key, i: int, o: Observation)
    requires Winner(s, k, i)
    ensures KeyOf(o) != k || o.at <= s[i].at ==> Winner(s + [o], k, i)
    ensures KeyOf(o) == k && o.at > s[i].at ==> Winner(s + [o], k, |s|)
  {
  }

  lemma {:induction false} ReplayedRow(s: seq<Observation>, k: Key) returns (i: int)
    requires k in Replay(s)
    ensures Winner(s, k, i) && Replay(s)[k] == RowOf(s[i])
  {
    var n := |s| - 1;
    var p, o := s[..n], s[n];
    assert s == p + [o];
    if k in Replay(p) {
      i := ReplayedRow(p, k);
      WinnerStays(p, k, i, o);
      i := if KeyOf(o) == k && o.at > p[i].at then n else i;
    } else {
      ReplayedKeys(p, k);
      assert forall j :: 0 <= j < n ==> s[j] == p[j];
      i := n;
    }
  }

  ghost predicate SameSet(s: seq<Observation>, t: seq<Observation>) {
    forall o :: o in s <==> o in t
  }

  ghost predicate Newest(s: seq<Observation>, o: Observation) {
    o in s && forall x :: x in s && KeyOf(x) == KeyOf(o) ==> x.at <= o.at
  }

  // No evaluator's newest observations of a node disagree on the score.
  ghost predicate Settled(s: seq<Observation>) {
    forall x, y :: Newest(s, x) && Newest(s, y) && KeyOf(x) == KeyOf(y) ==> x.score == y.score
  }

  lemma WinnerIsNewest(s: seq<Observation>, k: Key, i: int)
    requires Winner(s, k, i)
    ensures Newest(s, s[i])
  {
    forall x | x in s && KeyOf(x) == k
      ensures x.at <= s[i].at
    {
      var j :| 0 <= j < |s| && s[j] == x;
    }
  }

  // An observation put before all others wins over those it ties with.
  lemma FirstWins(s: seq<Observation>, o: Observation)
    requires Newest(s, o)
    ensures KeyOf(o) in Replay([o] + s) && Replay([o] + s)[KeyOf(o)] == RowOf(o)
  {
    var t := [o] + s;
    ReplayedKeys(t, KeyOf(o));
    assert KeyOf(t[0]) == KeyOf(o);
    var i := ReplayedRow(t, KeyOf(o));
    assert t[i] in t;
    assert i == 0;
  }

  lemma SettledReplaysTheSame(s: seq<Observation>, t: seq<Observation>)
    requires SameSet(s, t) && Settled(s)
    ensures Replay(s) == Replay(t)
  {
    forall k
      ensures k in Replay(s) <==> k in Replay(t)
      ensures k in Replay(s) ==> Replay(s)[k] == Replay(t)[k]
    {
      ReplayedKeys(s, k);
      ReplayedKeys(t, k);
      if k in Replay(s) {
        var i :| 0 <= i < |s| && KeyOf(s[i]) == k;
        assert s[i] in t;
      }
      if k in Replay(t) {
        var i :| 0 <= i < |t| && KeyOf(t[i]) == k;
        assert t[i] in s;
      }
      if k in Replay(s) {
        var i := ReplayedRow(s, k);
        var j := ReplayedRow(t, k);
        WinnerIsNewest(s, k, i);
        WinnerIsNewest(t, k, j);
        assert t[j] in s && s[i] in t;
        assert Newest(s, t[j]);
      }
    }
  }

  // The table forgets the order and the repetitions of its observations exactly when no
  // evaluator's newest observations of a node disagree.
  lemma TableConverges(s: seq<Observation>)
    ensures (forall t :: SameSet(s, t) ==> Replay(t) == Replay(s)) <==> Settled(s)
  {
    if Settled(s) {
      forall t | SameSet(s, t)
        ensures Replay(t) == Replay(s)
      {
        SettledReplaysTheSame(s, t);
      }
    } else {
      var x, y :| Newest(s, x) && Newest(s, y) && KeyOf(x) == KeyOf(y) && x.score != y.score;
      FirstWins(s, x);
      FirstWins(s, y);
      assert SameSet(s, [x] + s) && SameSet(s, [y] + s);
    }
  }
}
