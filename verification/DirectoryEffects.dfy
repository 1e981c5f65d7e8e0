// What each transaction on the directory's tables does, told from the tables alone.
module DirectoryEffects {
  import opened Text
  import opened CanonicalJson
  import opened EventMessages
  import opened Database
  import opened DirectoryLog

  // ---- Events ----

  ghost predicate Says(payload: Json, key: string, value: Json) {
    payload.Obj? && Member(key, value) in payload.members
  }

  // What the next event is linked to: the last signature's digest, or the chain's root.
  function LinkAfter(env: Env, last: Option<string>): string {
    if last.None? || last.value == "" then GENESIS_ROOT else env.hash(last.value)
  }

  // One row more, numbered after the head, linked to the head's signature, and now the
  // head itself.
  ghost predicate AppendsOne(
      env: Env, s: State, s': State, key: string, id: string, ty: string, node: string, ms: int) {
    && |s'.events| == |s.events| + 1 && s.events <= s'.events
    && var e := s'.events[|s.events|];
       && e.eventId == id && e.eventType == ty && e.nodeId == node && e.tsMs == ms && e.serviceId == None
       && e.seqNo == s.lastSeq + 1 == s'.lastSeq && e.sig == s'.lastSig == env.sign(key, e.(sig := None))
       && e.prevHash == Some(LinkAfter(env, s.lastSig))
  }

  ghost predicate SameLog(s: State, s': State) {
    s'.events == s.events && s'.lastSeq == s.lastSeq && s'.lastSig == s.lastSig
  }

  ghost predicate OtherNodesStay(s: State, s': State, node: string) {
    && node in s.nodes && s'.nodes.Keys == s.nodes.Keys && s'.replicas == s.replicas
    && forall n :: n in s.nodes && n != node ==> s'.nodes[n] == s.nodes[n]
  }

  // A signed append, on tables whose log is that of `s`, adds one event, or the key does
  // not sign.
  lemma SignedAppendEffect(
      env: Env, s: State, base: State, key: string, id: string, ty: string, node: string, payload: Json, ms: int)
    requires SameLog(s, base)
    ensures var r := SignedAppend(env, base, key, id, ty, node, payload, ms);
            && (r.None? <==> env.sign(key, Draft(env, s.lastSeq, s.lastSig, id, ty, node, payload, ms)).None?)
            && (r.Some? ==>
                  && AppendsOne(env, s, r.value, key, id, ty, node, ms) && r.value.lastSig.Some?
                  && r.value.events[|s.events|].payload == payload
                  && r.value.nodes == base.nodes && r.value.replicas == base.replicas)
  {
    var draft := Draft(env, s.lastSeq, s.lastSig, id, ty, node, payload, ms);
    assert draft.(sig := env.sign(key, draft)).(sig := None) == draft;
  }

  // A plain append records what was asked for, or the key does not sign.
  lemma AppendEffect(env: Env, s: State, key: string, ty: string, node: string, payload: Json, id: string, ms: int)
    ensures var s' := Next(env, s, Step(Append(key, ty, node, payload), id, ms, true));
            && s'.nodes == s.nodes && s'.replicas == s.replicas
            && (s' == s || (AppendsOne(env, s, s', key, id, ty, node, ms) && s'.lastSig.Some?
                            && s'.events[|s.events|].payload == payload))
    ensures (forall draft :: env.sign(key, draft).Some?)
      ==> Next(env, s, Step(Append(key, ty, node, payload), id, ms, true)) != s
  {
    SignedAppendEffect(env, s, s, key, id, ty, node, payload, ms);
  }

  // ---- Probes ----

  // The route is what the probe found, and the mark says since when it has been dead.
  ghost predicate RouteSettled(row: RouteRow, row': RouteRow, passed: bool, ms: int) {
    && row'.publicReachable == passed
    && row'.deadSince == (if passed then None else if row.publicReachable then Some(ms / 1000) else row.deadSince)
    && row' == row.(publicReachable := row'.publicReachable, deadSince := row'.deadSince)
  }

  // One event tells of it if the route or a mark had to be changed, and none otherwise.
  ghost predicate ProbeSettled(env: Env, s: State, s': State, node: string, passed: bool, id: string, ms: int)
    requires env.signingKey.Some?
  {
    && OtherNodesStay(s, s', node) && RouteSettled(s.nodes[node], s'.nodes[node], passed, ms)
    && var row := s.nodes[node];
       if row.publicReachable == passed && (passed ==> row.deadSince.None?) then SameLog(s, s')
       else
         var ty := if passed then "REACHABILITY_RESTORE" else "REACHABILITY_DEMOTE";
         && AppendsOne(env, s, s', env.signingKey.value, id, ty, node, ms) && s'.lastSig.Some?
         && Says(s'.events[|s.events|].payload, "from", Bool(row.publicReachable))
         && Says(s'.events[|s.events|].payload, "to", Bool(passed))
  }

  // A probe settles the route of a known node when the directory can sign, and changes
  // nothing when it cannot.
  lemma ProbeEffect(env: Env, s: State, node: string, passed: bool, id: string, ms: int)
    ensures var s' := Next(env, s, Step(Probe(node, passed), id, ms, true));
            && (s' == s || (env.signingKey.Some? && ProbeSettled(env, s, s', node, passed, id, ms)))
            && (node in s.nodes && AlwaysSigns(env) ==> ProbeSettled(env, s, s', node, passed, id, ms))
  {
    if node in s.nodes && env.signingKey.Some? {
      var row := s.nodes[node];
      if row.publicReachable != passed || (passed && row.deadSince.Some?) {
        ProbeWrites(env, s, node, passed, id, ms);
      }
    }
  }

  lemma ProbeWrites(env: Env, s: State, node: string, passed: bool, id: string, ms: int)
    requires node in s.nodes && env.signingKey.Some?
    requires s.nodes[node].publicReachable != passed || (passed && s.nodes[node].deadSince.Some?)
    ensures var s' := Next(env, s, Step(Probe(node, passed), id, ms, true));
            && (s' == s || ProbeSettled(env, s, s', node, passed, id, ms)) && (AlwaysSigns(env) ==> s' != s)
  {
    if passed {
      ProbeRestores(env, s, node, id, ms);
    } else {
      ProbeDemotes(env, s, node, id, ms);
    }
  }

  lemma ProbeRestores(env: Env, s: State, node: string, id: string, ms: int)
    requires node in s.nodes && env.signingKey.Some?
    requires !s.nodes[node].publicReachable || s.nodes[node].deadSince.Some?
    ensures var s' := ProbeStep(env, s, node, true, id, ms);
            (s' == s || ProbeSettled(env, s, s', node, true, id, ms)) && (AlwaysSigns(env) ==> s' != s)
  {
    var row := s.nodes[node];
    var up := s.(nodes := s.nodes[node := row.(publicReachable := true, deadSince := None)]);
    var payload := RestorePayload(row.publicReachable, row.deadSince.Some?);
    ProbePayloads(row);
    SignedAppendEffect(env, s, up, env.signingKey.value, id, "REACHABILITY_RESTORE", node, payload, ms);
  }

  lemma ProbeDemotes(env: Env, s: State, node: string, id: string, ms: int)
    requires node in s.nodes && env.signingKey.Some? && s.nodes[node].publicReachable
    ensures var s' := ProbeStep(env, s, node, false, id, ms);
            (s' == s || ProbeSettled(env, s, s', node, false, id, ms)) && (AlwaysSigns(env) ==> s' != s)
  {
    var row := s.nodes[node];
    var down := s.(nodes := s.nodes[node := row.(publicReachable := false, deadSince := Some(ms / 1000))]);
    ProbePayloads(row);
    SignedAppendEffect(env, s, down, env.signingKey.value, id, "REACHABILITY_DEMOTE", node, DEMOTE_PAYLOAD, ms);
  }

  lemma ProbePayloads(row: RouteRow)
    ensures Says(RestorePayload(row.publicReachable, row.deadSince.Some?), "from", Bool(row.publicReachable))
    ensures Says(RestorePayload(row.publicReachable, row.deadSince.Some?), "to", Bool(true))
    ensures Says(DEMOTE_PAYLOAD, "from", Bool(true)) && Says(DEMOTE_PAYLOAD, "to", Bool(false))
  {
    var up, down := RestorePayload(row.publicReachable, row.deadSince.Some?), DEMOTE_PAYLOAD;
    assert up.members[0] == Member("from", Bool(row.publicReachable)) && up.members[1] == Member("to", Bool(true));
    assert down.members[0] == Member("from", Bool(true)) && down.members[1] == Member("to", Bool(false));
  }

  // ---- Heartbeats ----

  // What is left of the hour's budget of 0.20; an hour is over 3600 seconds after it began.
  function Room(row: RouteRow, ms: int): real {
    if HourOver(row, ms) then 0.20 else if row.hourlyGain < 0.20 then 0.20 - row.hourlyGain else 0.0
  }

  predicate HourOver(row: RouteRow, ms: int) {
    row.windowStart.None? || ms / 1000 - row.windowStart.value >= 3600
  }

  // A positive delta is credited in full within the budget and cut to what is left beyond
  // it; any other is applied as it is.
  function Credited(row: RouteRow, delta: real, ms: int): real {
    if delta <= Room(row, ms) then delta else Room(row, ms)
  }

  // The score moves by that much within [0, 1], the budget pays for gains only, and the
  // node is active.
  lemma BeatEffect(row: RouteRow, beat: Beat, ms: int)
    requires beat.batch.None? || beat.batch != row.lastBatch
    ensures var r, moved := BeatRow(row, beat, ms), row.reputation + Credited(row, beat.delta, ms);
            && r.reputation == (if moved < 0.0 then 0.0 else if moved > 1.0 then 1.0 else moved)
            && r.tasksTotal == row.tasksTotal + beat.tasks && r.tasksFailed == row.tasksFailed + beat.failed
            && (beat.delta <= 0.0 ==> r.hourlyGain == row.hourlyGain && r.windowStart == row.windowStart)
            && (beat.delta > 0.0 && HourOver(row, ms) ==>
                  r.hourlyGain == Credited(row, beat.delta, ms) && r.windowStart == Some(ms / 1000))
            && (beat.delta > 0.0 && !HourOver(row, ms) ==>
                  r.hourlyGain == row.hourlyGain + Credited(row, beat.delta, ms) && r.windowStart == row.windowStart)
            && (beat.batch.Some? ==> r.lastBatch == beat.batch)
            && r.status == "active" && r.dormantSince == None
            && r.publicReachable == row.publicReachable && r.deadSince == row.deadSince
  {
  }

  // A batch that was counted already counts for nothing.
  lemma RepeatedBatchEffect(row: RouteRow, beat: Beat, ms: int)
    requires beat.batch.Some? && beat.batch == row.lastBatch && 0.0 <= row.reputation <= 1.0
    ensures BeatRow(row, beat, ms) == row.(status := "active", dormantSince := None)
  {
  }

  // Since when, in milliseconds, and for how long, in whole seconds and not below none.
  ghost predicate TellsOfSleep(payload: Json, since: Option<int>, ms: int) {
    match since
    case None =>
      Says(payload, "dormant_since_ms", Null) && Says(payload, "dormancy_duration_seconds", Null)
    case Some(t) =>
      && Says(payload, "dormant_since_ms", Number(Decimal(1000 * t)))
      && Says(payload, "dormancy_duration_seconds", Number(Decimal(if ms / 1000 > t then ms / 1000 - t else 0)))
  }

  lemma SleepIsTold(since: Option<int>, ms: int)
    ensures TellsOfSleep(ReactivatePayload(since, ms), since, ms)
  {
    var members := ReactivatePayload(since, ms).members;
    assert members[0] in members && members[1] in members;
  }

  // The heartbeat of a known node writes its row, and the event of a node that was dormant
  // when there is a key; if that key does not sign it writes nothing.
  lemma HeartbeatEffect(env: Env, s: State, node: string, beat: Beat, id: string, ms: int)
    requires node in s.nodes
    ensures var s' := Next(env, s, Step(Heartbeat(node, beat), id, ms, true));
            var wakes := s.nodes[node].status == "dormant" && env.signingKey.Some?;
            && OtherNodesStay(s, s', node)
            && (!wakes ==> s'.nodes[node] == BeatRow(s.nodes[node], beat, ms) && SameLog(s, s'))
            && (wakes && s' != s ==>
                  && s'.nodes[node] == BeatRow(s.nodes[node], beat, ms) && s'.lastSig.Some?
                  && AppendsOne(env, s, s', env.signingKey.value, id, "REACTIVATE", node, ms)
                  && TellsOfSleep(s'.events[|s.events|].payload, s.nodes[node].dormantSince, ms))
            && (wakes && AlwaysSigns(env) ==> s' != s)
  {
    var row := s.nodes[node];
    if row.status == "dormant" && env.signingKey.Some? {
      var base := s.(nodes := s.nodes[node := BeatRow(row, beat, ms)]);
      var payload := ReactivatePayload(row.dormantSince, ms);
      SleepIsTold(row.dormantSince, ms);
      SignedAppendEffect(env, s, base, env.signingKey.value, id, "REACTIVATE", node, payload, ms);
    }
  }

  // ---- Replicas ----

  // A tenure that is active and has not run out ends now: its token is replaced by the
  // tombstone, and an event names its owner, signed if the key signs.
  lemma DecommissionEffect(
      env: Env, s: State, replica: string, did: string, key: string, tombstone: string, id: string, ms: int)
    ensures var s' := Next(env, s, Step(Decommission(replica, did, key, tombstone), id, ms, true));
            if replica in s.replicas && s.replicas[replica].status == "active"
               && s.replicas[replica].expiresAt > ms / 1000
            then
              && s'.nodes == s.nodes
              && s'.replicas == s.replicas[replica := ReplicaRow("decommissioned", ms / 1000, tombstone)]
              && AppendsOne(env, s, s', key, id, "REPLICA_DEREGISTERED", replica, ms)
              && Says(s'.events[|s.events|].payload, "did", Str(did))
            else s' == s
  {
    var s' := Next(env, s, Step(Decommission(replica, did, key, tombstone), id, ms, true));
    if s' != s {
      var e, payload := s'.events[|s.events|], Obj([Member("did", Str(did))]);
      assert payload.members[0] == Member("did", Str(did));
      assert e.(sig := None) ==
             Draft(env, s.lastSeq, s.lastSig, id, "REPLICA_DEREGISTERED", replica, payload, ms);
    }
  }

  // ---- Sweeps and restrictions ----

  lemma SweepEffect(env: Env, s: State, ids: set<string>, id: string, ms: int, node: string)
    requires node in s.nodes
    ensures var s', row := Next(env, s, Step(MarkDormant(ids), id, ms, true)), s.nodes[node];
            && s'.nodes.Keys == s.nodes.Keys && s'.replicas == s.replicas && SameLog(s, s')
            && s'.nodes[node] == if node in ids then row.(status := "dormant", dormantSince := Some(ms / 1000)) else row
    ensures var s', row := Next(env, s, Step(Restrict(ids), id, ms, true)), s.nodes[node];
            && s'.nodes.Keys == s.nodes.Keys && s'.replicas == s.replicas && SameLog(s, s')
            && (node !in ids ==> s'.nodes[node] == row)
            && (node in ids ==> s'.nodes[node].status == "archived" && !s'.nodes[node].publicReachable
                                && s'.nodes[node].deadSince == s'.nodes[node].dormantSince == Some(ms / 1000))
  {
  }
}
