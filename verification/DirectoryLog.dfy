// Every transaction that appends to the event log: plain appends, a heartbeat that
// reactivates a node, a probe that demotes or restores a route, and the decommissioning
// of a replica; and two that change a node without an event, expiry and restriction.
// A transaction takes effect as a whole or not at all.
module DirectoryLog {
  import opened Text
  import opened CanonicalJson
  import opened EventMessages
  import opened Database
  import opened Reals

  // Times are whole seconds where MySQL stores them and milliseconds where Rust reads them.
  datatype RouteRow = RouteRow(
    status: string, dormantSince: Option<int>,
    publicReachable: bool, deadSince: Option<int>,
    reputation: real, hourlyGain: real, windowStart: Option<int>,
    tasksTotal: nat, tasksFailed: nat, lastBatch: Option<string>)

  datatype ReplicaRow = ReplicaRow(status: string, expiresAt: int, tokenHash: string)

  // `lastSeq` and `lastSig` are the chain-head row.
  datatype State = State(
    nodes: map<string, RouteRow>, replicas: map<string, ReplicaRow>,
    events: seq<Event>, lastSeq: int, lastSig: Option<string>)

  // The digest, the signer (None for a malformed key) and the configured signing key.
  datatype Env = Env(hash: string -> string, sign: (string, Event) -> Option<string>, signingKey: Option<string>)

  // ---- Appending ----

  // The event a transaction drafts against the locked chain head, before signing.
  function Draft(
      env: Env, lastSeq: int, lastSig: Option<string>, id: string, ty: string, node: string, payload: Json,
      nowMs: int): Event {
    Event(id, ty, lastSeq + 1, nowMs, node, payload, Some(PrevHashFrom(env.hash, lastSig)), None, None)
  }

  ghost function AppendDraft(s: State, draft: Event, sig: Option<string>): State {
    s.(events := s.events + [draft.(sig := sig)], lastSeq := draft.seqNo, lastSig := sig)
  }

  // A signed append; None when the key does not sign.
  ghost function SignedAppend(
      env: Env, s: State, key: string, id: string, ty: string, node: string, payload: Json, nowMs: int): Option<State> {
    var draft := Draft(env, s.lastSeq, s.lastSig, id, ty, node, payload, nowMs);
    var sig := env.sign(key, draft);
    if sig.None? then None else Some(AppendDraft(s, draft, sig))
  }

  // The configured key signs whatever it is given.
  ghost predicate AlwaysSigns(env: Env) {
    env.signingKey.Some? && forall draft :: env.sign(env.signingKey.value, draft).Some?
  }

  // ---- The hourly reputation budget ----

  const MAX_HOURLY_GAIN: real := 0.20

  datatype Throttled = Throttled(effective: real, gain: real, reset: bool)

  function Throttle(gain: real, windowStart: Option<int>, nowMs: int, delta: real): Throttled {
    if delta > 0.0 then
      var expired := windowStart.None? || nowMs / 1000 - windowStart.value >= 3600;
      var current := if expired then 0.0 else gain;
      var capped := Min(delta, Max(MAX_HOURLY_GAIN - current, 0.0));
      Throttled(capped, current + capped, expired)
    else Throttled(delta, gain, false)
  }

  datatype Beat = Beat(delta: real, tasks: nat, failed: nat, batch: Option<string>)

  // A metrics batch that repeats the last one counts for nothing.
  function NotRepeated(row: RouteRow, beat: Beat): Beat {
    if beat.batch.None? || row.lastBatch != beat.batch then beat else Beat(0.0, 0, 0, beat.batch)
  }

  function BeatThrottle(row: RouteRow, beat: Beat, nowMs: int): Throttled {
    Throttle(row.hourlyGain, row.windowStart, nowMs, NotRepeated(row, beat).delta)
  }

  ghost function BeatRow(row: RouteRow, beat: Beat, nowMs: int): RouteRow {
    var b, t := NotRepeated(row, beat), BeatThrottle(row, beat, nowMs);
    row.(
      status := "active", dormantSince := None,
      reputation := Min(Max(row.reputation + t.effective, 0.0), 1.0),
      hourlyGain := t.gain,
      windowStart := if t.reset then Some(nowMs / 1000) else row.windowStart,
      tasksTotal := row.tasksTotal + b.tasks, tasksFailed := row.tasksFailed + b.failed,
      lastBatch := if beat.batch.Some? then beat.batch else row.lastBatch)
  }

  // ---- Payloads ----

  function JsonInt(n: int): Json { Number(Decimal(n)) }

  function ReactivatePayload(dormantSince: Option<int>, nowMs: int): Json {
    match dormantSince
    case None => Obj([Member("dormant_since_ms", Null), Member("dormancy_duration_seconds", Null)])
    case Some(t) =>
      var seconds := nowMs / 1000 - t;
      Obj([Member("dormant_since_ms", JsonInt(1000 * t)),
           Member("dormancy_duration_seconds", JsonInt(if seconds < 0 then 0 else seconds))])
  }

  function RestorePayload(publicReachable: bool, wasDead: bool): Json {
    Obj([Member("from", Bool(publicReachable)), Member("to", Bool(true)), Member("reason", Str("probe_success")),
         Member("probe_source", Str("directory_active_probe")),
         Member("endpoint_verified_dead_at_cleared", Bool(wasDead))])
  }

  const DEMOTE_PAYLOAD :=
    Obj([Member("from", Bool(true)), Member("to", Bool(false)), Member("reason", Str("confirmed_probe_failure")),
         Member("probe_source", Str("directory_active_probe")), Member("endpoint_verified_dead_at_set", Bool(true))])

  // ---- Transactions as steps ----

  datatype Action =
    | Append(key: string, eventType: string, nodeId: string, payload: Json)
    | Heartbeat(nodeId: string, beat: Beat)
    | Probe(nodeId: string, passed: bool)
    | Decommission(replicaId: string, did: string, key: string, tombstone: string)
    | MarkDormant(ids: set<string>)
    | Restrict(ids: set<string>)

  // One attempt at a transaction. `commits` is false when the database makes it fail.
  datatype Step = Step(action: Action, eventId: string, nowMs: int, commits: bool)

  datatype Transition = Unchanged | Restored | Demoted

  function RouteTransition(row: RouteRow, passed: bool): Transition {
    if passed && (!row.publicReachable || row.deadSince.Some?) then Restored
    else if !passed && row.publicReachable then Demoted
    else Unchanged
  }

  ghost function HeartbeatStep(env: Env, s: State, node: string, beat: Beat, id: string, nowMs: int): State {
    if node !in s.nodes then s
    else
      var row := s.nodes[node];
      var s' := s.(nodes := s.nodes[node := BeatRow(row, beat, nowMs)]);
      if row.status == "dormant" && env.signingKey.Some? then
        var appended := SignedAppend(env, s', env.signingKey.value, id, "REACTIVATE", node,
          ReactivatePayload(row.dormantSince, nowMs), nowMs);
        if appended.Some? then appended.value else s
      else s'
  }

  ghost function ProbeStep(env: Env, s: State, node: string, passed: bool, id: string, nowMs: int): State {
    if node !in s.nodes || env.signingKey.None? then s
    else
      var row := s.nodes[node];
      var up := row.(publicReachable := true, deadSince := None);
      var down := row.(publicReachable := false, deadSince := Some(nowMs / 1000));
      var key := env.signingKey.value;
      var appended := match RouteTransition(row, passed)
        case Unchanged => None
        case Restored =>
          SignedAppend(env, s.(nodes := s.nodes[node := up]), key, id,
                       "REACHABILITY_RESTORE", node, RestorePayload(row.publicReachable, row.deadSince.Some?), nowMs)
        case Demoted =>
          SignedAppend(env, s.(nodes := s.nodes[node := down]), key, id,
                       "REACHABILITY_DEMOTE", node, DEMOTE_PAYLOAD, nowMs);
      if appended.Some? then appended.value else s
  }

  predicate ReplicaActive(replicas: map<string, ReplicaRow>, id: string, nowMs: int) {
    id in replicas && replicas[id].status == "active" && replicas[id].expiresAt > nowMs / 1000
  }

  // Unlike the others this append goes through unsigned when the key is malformed.
  ghost function DecommissionStep(env: Env, s: State, a: Action, id: string, nowMs: int): State
    requires a.Decommission?
  {
    if !ReplicaActive(s.replicas, a.replicaId, nowMs) then s
    else
      var draft := Draft(env, s.lastSeq, s.lastSig, id, "REPLICA_DEREGISTERED", a.replicaId,
        Obj([Member("did", Str(a.did))]), nowMs);
      var gone := ReplicaRow("decommissioned", nowMs / 1000, a.tombstone);
      AppendDraft(s.(replicas := s.replicas[a.replicaId := gone]), draft, env.sign(a.key, draft))
  }

  // Expiry of stale nodes: whatever the nodes found stale have become since.
  function Dormant(nodes: map<string, RouteRow>, ids: set<string>, nowMs: int): map<string, RouteRow> {
    map n | n in nodes ::
      if n in ids then nodes[n].(status := "dormant", dormantSince := Some(nowMs / 1000)) else nodes[n]
  }

  // A data-subject restriction takes an operator's nodes out of service.
  function Restricted(nodes: map<string, RouteRow>, ids: set<string>, nowMs: int): map<string, RouteRow> {
    map n | n in nodes ::
      if n in ids then
        nodes[n].(status := "archived", dormantSince := Some(nowMs / 1000),
                  publicReachable := false, deadSince := Some(nowMs / 1000))
      else nodes[n]
  }

  ghost function Next(env: Env, s: State, step: Step): State {
    if !step.commits then s
    else match step.action
      case Append(key, ty, node, payload) =>
        var appended := SignedAppend(env, s, key, step.eventId, ty, node, payload, step.nowMs);
        if appended.Some? then appended.value else s
      case Heartbeat(node, beat) => HeartbeatStep(env, s, node, beat, step.eventId, step.nowMs)
      case Probe(node, passed) => ProbeStep(env, s, node, passed, step.eventId, step.nowMs)
      case Decommission(_, _, _, _) => DecommissionStep(env, s, step.action, step.eventId, step.nowMs)
      case MarkDormant(ids) => s.(nodes := Dormant(s.nodes, ids, step.nowMs))
      case Restrict(ids) => s.(nodes := Restricted(s.nodes, ids, step.nowMs))
  }

  ghost function Run(env: Env, s: State, steps: seq<Step>): State {
    if steps == [] then s else Next(env, Run(env, s, steps[..|steps| - 1]), steps[|steps| - 1])
  }

  // ---- The tables and the code that changes them ----

  // What the environment decides for one attempt: the steps other sessions commit before
  // it, the fresh event id, the clock, and the database's verdict.
  datatype Attempt = Attempt(before: seq<Step>, eventId: string, nowMs: int, fault: Fault)

  class Directory {
    const env: Env
    var nodes: map<string, RouteRow>
    var replicas: map<string, ReplicaRow>
    var events: seq<Event>
    var lastSeq: int
    var lastSig: Option<string>

    constructor (env: Env, nodes: map<string, RouteRow>, replicas: map<string, ReplicaRow>)
      ensures this.env == env && View() == State(nodes, replicas, [], 0, None)
    {
      this.env, this.nodes, this.replicas := env, nodes, replicas;
      events, lastSeq, lastSig := [], 0, None;
    }

    ghost function View(): State
      reads this
    {
      State(nodes, replicas, events, lastSeq, lastSig)
    }

    // Reads the locked head, signs, inserts the row and moves the head.
    method AppendSignedEventInTx(key: string, ty: string, node: string, payload: Json, id: string, nowMs: int)
      returns (seqNo: Option<int>)
      modifies this`events, this`lastSeq, this`lastSig
      ensures match SignedAppend(env, old(View()), key, id, ty, node, payload, nowMs)
        case None => seqNo == None && View() == old(View())
        case Some(s') => seqNo == Some(s'.lastSeq) && View() == s'
    {
      var nextSeq := lastSeq + 1;
      var prevHash := PrevHashFrom(env.hash, lastSig);
      var draft := Event(id, ty, nextSeq, nowMs, node, payload, Some(prevHash), None, None);
      var signature := env.sign(key, draft);
      if signature.None? {
        return None;
      }
      events := events + [draft.(sig := signature)];
      lastSeq, lastSig := nextSeq, signature;
      seqNo := Some(nextSeq);
    }

    // The node's row after a heartbeat.
    method WriteBeat(node: string, beat: Beat, nowMs: int) returns (score: real)
      requires node in nodes
      modifies this`nodes
      ensures nodes == old(nodes)[node := BeatRow(old(nodes)[node], beat, nowMs)] && score == nodes[node].reputation
    {
      var row := nodes[node];
      var applied := beat.batch.None? || row.lastBatch != beat.batch;
      var tasks, failed, delta := 0, 0, 0.0;
      if applied {
        tasks, failed, delta := beat.tasks, beat.failed, beat.delta;
      }
      var t := Throttle(row.hourlyGain, row.windowStart, nowMs, delta);
      score := Min(Max(row.reputation + t.effective, 0.0), 1.0);
      nodes := nodes[node := RouteRow("active", None, row.publicReachable, row.deadSince, score, t.gain,
        if t.reset then Some(nowMs / 1000) else row.windowStart,
        row.tasksTotal + tasks, row.tasksFailed + failed, if beat.batch.Some? then beat.batch else row.lastBatch)];
    }

    // The heartbeat transaction; None when it fails, its reply is lost or the node is unknown.
    method HeartbeatOnce(node: string, beat: Beat, id: string, nowMs: int, fault: Fault) returns (score: Option<real>)
      modifies this
      ensures View() == Next(env, old(View()), Step(Heartbeat(node, beat), id, nowMs, TakesEffect(fault)))
      ensures score.None? && fault != LostReply ==> View() == old(View())
      ensures score.Some?
        <==> && fault == NoFault && node in old(nodes)
             && (old(nodes)[node].status == "dormant" && env.signingKey.Some? ==> |events| == |old(events)| + 1)
      ensures score.Some? ==> node in old(nodes) && node in nodes
      ensures score.Some?
        ==> nodes[node] == BeatRow(old(nodes)[node], beat, nowMs) && score.value == nodes[node].reputation
    {
      var savedNodes := nodes;
      if node !in nodes || !TakesEffect(fault) {
        return None;
      }
      var row := nodes[node];
      var newScore := WriteBeat(node, beat, nowMs);
      if row.status == "dormant" && env.signingKey.Some? {
        var payload := ReactivatePayload(row.dormantSince, nowMs);
        var appended := AppendSignedEventInTx(env.signingKey.value, "REACTIVATE", node, payload, id, nowMs);
        if appended.None? {
          nodes := savedNodes;
          return None;
        }
      }
      score := if fault == NoFault then Some(newScore) else None;
    }

    // The probe transaction. Route state and its signed evidence change together.
    method ApplyProbeRouteState(node: string, passed: bool, id: string, nowMs: int, fault: Fault)
      returns (t: Transition)
      modifies this
      ensures View() == Next(env, old(View()), Step(Probe(node, passed), id, nowMs, TakesEffect(fault)))
      ensures fault != LostReply ==> (t == Unchanged <==> View() == old(View()))
      ensures t == Restored ==> passed && node in old(nodes)
      ensures t == Demoted ==> !passed && node in old(nodes) && old(nodes)[node].publicReachable
      ensures t == Restored ==> !old(nodes)[node].publicReachable || old(nodes)[node].deadSince.Some?
      ensures fault == NoFault && node in old(nodes) && AlwaysSigns(env)
        ==> node in nodes && nodes[node].publicReachable == passed && (passed ==> nodes[node].deadSince.None?)
      ensures fault == NoFault && node in old(nodes) && AlwaysSigns(env)
        ==> (t == Demoted <==> !passed && old(nodes)[node].publicReachable)
      ensures fault == NoFault && node in old(nodes) && AlwaysSigns(env)
        ==> (t == Restored <==> passed && (!old(nodes)[node].publicReachable || old(nodes)[node].deadSince.Some?))
    {
      var savedNodes := nodes;
      if node !in nodes || !TakesEffect(fault) {
        return Unchanged;
      }
      var row := nodes[node];
      if passed && (!row.publicReachable || row.deadSince.Some?) {
        t := Restored;
      } else if !passed && row.publicReachable {
        t := Demoted;
      } else {
        return Unchanged;
      }
      var ty, payload := "REACHABILITY_DEMOTE", DEMOTE_PAYLOAD;
      if t == Restored {
        nodes := nodes[node := row.(publicReachable := true, deadSince := None)];
        ty, payload := "REACHABILITY_RESTORE", RestorePayload(row.publicReachable, row.deadSince.Some?);
      } else {
        nodes := nodes[node := row.(publicReachable := false, deadSince := Some(nowMs / 1000))];
      }
      if env.signingKey.None? {
        nodes := savedNodes;
        return Unchanged;
      }
      var appended := AppendSignedEventInTx(env.signingKey.value, ty, node, payload, id, nowMs);
      if appended.None? {
        nodes := savedNodes;
        return Unchanged;
      }
      t := if fault == NoFault then t else Unchanged;
    }

    // Ends a replica's tenure and records it, signed or not.
    method DecommissionReplicaWithEvent(
        replicaId: string, did: string, key: string, tombstone: string, id: string, nowMs: int, fault: Fault)
      returns (done: bool)
      modifies this
      ensures View() == Next(env, old(View()),
        Step(Decommission(replicaId, did, key, tombstone), id, nowMs, TakesEffect(fault)))
      ensures done <==> fault == NoFault && ReplicaActive(old(replicas), replicaId, nowMs)
    {
      if !TakesEffect(fault) || !ReplicaActive(replicas, replicaId, nowMs) {
        return false;
      }
      var nextSeq := lastSeq + 1;
      var prevHash := PrevHashFrom(env.hash, lastSig);
      var draft := Event(id, "REPLICA_DEREGISTERED", nextSeq, nowMs, replicaId, Obj([Member("did", Str(did))]),
        Some(prevHash), None, None);
      var signature := env.sign(key, draft);
      replicas := replicas[replicaId := ReplicaRow("decommissioned", nowMs / 1000, tombstone)];
      events := events + [draft.(sig := signature)];
      lastSeq, lastSig := nextSeq, signature;
      done := fault == NoFault;
    }

    method MarkNodesDormant(ids: set<string>, id: string, nowMs: int, fault: Fault)
      modifies this`nodes
      ensures View() == Next(env, old(View()), Step(MarkDormant(ids), id, nowMs, TakesEffect(fault)))
    {
      if TakesEffect(fault) {
        nodes := Dormant(nodes, ids, nowMs);
      }
    }

    method RestrictNodes(ids: set<string>, id: string, nowMs: int, fault: Fault)
      modifies this`nodes
      ensures View() == Next(env, old(View()), Step(Restrict(ids), id, nowMs, TakesEffect(fault)))
    {
      if TakesEffect(fault) {
        nodes := Restricted(nodes, ids, nowMs);
      }
    }

    // Other sessions commit while this one is between two attempts.
    method OthersCommit(steps: seq<Step>)
      modifies this
      ensures View() == Run(env, old(View()), steps)
    {
      ghost var s0 := View();
      assert steps[..0] == [];
      for i := 0 to |steps|
        invariant View() == Run(env, s0, steps[..i])
      {
        assert steps[..i + 1][..i] == steps[..i];
        Commit(steps[i]);
      }
      assert steps[..|steps|] == steps;
    }

    method Commit(step: Step)
      modifies this
      ensures View() == Next(env, old(View()), step)
    {
      var fault := if step.commits then NoFault else Permanent;
      match step.action {
        case Append(key, ty, node, payload) =>
          if step.commits {
            var _ := AppendSignedEventInTx(key, ty, node, payload, step.eventId, step.nowMs);
          }
        case Heartbeat(node, beat) =>
          var _ := HeartbeatOnce(node, beat, step.eventId, step.nowMs, fault);
        case Probe(node, passed) =>
          var _ := ApplyProbeRouteState(node, passed, step.eventId, step.nowMs, fault);
        case Decommission(replicaId, did, key, tombstone) =>
          var _ := DecommissionReplicaWithEvent(replicaId, did, key, tombstone, step.eventId, step.nowMs, fault);
        case MarkDormant(ids) =>
          MarkNodesDormant(ids, step.eventId, step.nowMs, fault);
        case Restrict(ids) =>
          RestrictNodes(ids, step.eventId, step.nowMs, fault);
      }
    }

    // One attempt, after the steps other sessions commit before it.
    method AppendAttempt(key: string, ty: string, node: string, payload: Json, a: Attempt) returns (seqNo: Option<int>)
      modifies this
      ensures View() == Next(env, Run(env, old(View()), a.before), AppendOf(key, ty, node, payload, a))
      ensures seqNo.Some? <==> a.fault == NoFault && View() != Run(env, old(View()), a.before)
      ensures seqNo.Some?
        ==> events != [] && lastSeq == seqNo.value && Records(events[|events| - 1], ty, node, payload, seqNo.value)
    {
      OthersCommit(a.before);
      if !TakesEffect(a.fault) {
        return None;
      }
      ghost var met := View();
      seqNo := AppendSignedEventInTx(key, ty, node, payload, a.eventId, a.nowMs);
      assert seqNo.Some? ==> View().lastSeq != met.lastSeq;
      if a.fault == LostReply {
        seqNo := None;
      }
    }

    // Up to three attempts, each against the head it finds and another one exactly after a
    // transient fault; only the last can have appended.
    method AppendSignedEvent(key: string, ty: string, node: string, payload: Json, plan: nat -> Attempt)
      returns (seqNo: Option<int>, ghost n: nat)
      modifies this
      ensures n < 3 && (forall i :: 0 <= i < n ==> plan(i).fault == Transient) && (n < 2 ==> plan(n).fault != Transient)
      ensures View() == AfterAttempts(env, old(View()), key, ty, node, payload, plan, n + 1)
      ensures seqNo.Some?
        <==> plan(n).fault == NoFault && View() != Met(env, old(View()), key, ty, node, payload, plan, n)
      ensures seqNo.Some?
        ==> events != [] && lastSeq == seqNo.value && Records(events[|events| - 1], ty, node, payload, seqNo.value)
    {
      var attempt := 0;
      while true
        invariant attempt < 3 && View() == AfterAttempts(env, old(View()), key, ty, node, payload, plan, attempt)
        invariant forall i :: 0 <= i < attempt ==> plan(i).fault == Transient
        decreases 3 - attempt
      {
        var a := plan(attempt);
        n := attempt;
        seqNo := AppendAttempt(key, ty, node, payload, a);
        if a.fault != Transient || attempt == 2 {
          return;
        }
        attempt := attempt + 1;
      }
    }
  }

  function AppendOf(key: string, ty: string, node: string, payload: Json, a: Attempt): Step {
    Step(Append(key, ty, node, payload), a.eventId, a.nowMs, TakesEffect(a.fault))
  }

  // The state after `n` attempts of one call, and as the next attempt finds it.
  ghost function AfterAttempts(
      env: Env, s: State, key: string, ty: string, node: string, payload: Json, plan: nat -> Attempt, n: nat): State
    decreases n, 0
  {
    if n == 0 then s
    else Next(env, Met(env, s, key, ty, node, payload, plan, n - 1), AppendOf(key, ty, node, payload, plan(n - 1)))
  }

  ghost function Met(
      env: Env, s: State, key: string, ty: string, node: string, payload: Json, plan: nat -> Attempt, n: nat): State
    decreases n, 1
  {
    Run(env, AfterAttempts(env, s, key, ty, node, payload, plan, n), plan(n).before)
  }

  // A call is a run of its attempts and the others' steps.
  lemma {:induction false} CallIsRun(
      env: Env, s: State, key: string, ty: string, node: string, payload: Json, plan: nat -> Attempt, n: nat)
    returns (steps: seq<Step>)
    ensures AfterAttempts(env, s, key, ty, node, payload, plan, n) == Run(env, s, steps)
  {
    if n == 0 {
      steps := [];
    } else {
      var first := CallIsRun(env, s, key, ty, node, payload, plan, n - 1);
      var before, own := plan(n - 1).before, AppendOf(key, ty, node, payload, plan(n - 1));
      RunConcat(env, s, first, before);
      steps := first + before + [own];
      assert steps[..|steps| - 1] == first + before;
    }
  }

  ghost predicate Records(e: Event, ty: string, node: string, payload: Json, seqNo: int) {
    e.eventType == ty && e.nodeId == node && e.payload == payload && e.seqNo == seqNo && e.sig.Some?
  }

  lemma {:induction false} RunConcat(env: Env, s: State, p: seq<Step>, q: seq<Step>)
    ensures Run(env, s, p + q) == Run(env, Run(env, s, p), q)
  {
    if q == [] {
      assert p + q == p;
    } else {
      var n := |q| - 1;
      assert (p + q)[..|p + q| - 1] == p + q[..n];
      RunConcat(env, s, p, q[..n]);
    }
  }
}
