// What holds of the event log, of routes and of reputation over whole runs of the
// transactions, however they interleave and whichever of them fail.
module DirectoryRuns {
  import opened Text
  import opened CanonicalJson
  import opened EventMessages
  import opened EventAudit
  import opened Reals
  import opened DirectoryLog

  // ---- The chain: no assumption about keys or signatures ----

  // Sequence numbers run from 1 without gaps, every link is derived from the signature
  // before it, and the head is the last event.
  ghost predicate ChainOk(env: Env, s: State) {
    s.lastSeq == |s.events| && s.lastSig == LastSig(s.events) && RowsOk(env.hash, s.events)
  }

  ghost predicate RowsOk(hash: string -> string, events: seq<Event>) {
    forall i :: 0 <= i < |events| ==> RowOk(hash, events, i)
  }

  ghost function LastSig(events: seq<Event>): Option<string> {
    if events == [] then None else events[|events| - 1].sig
  }

  ghost predicate RowOk(hash: string -> string, events: seq<Event>, i: nat)
    requires i < |events|
  {
    && events[i].seqNo == i + 1
    && events[i].prevHash == Some(PrevHashFrom(hash, LastSig(events[..i])))
    && events[i].serviceId == None
  }

  ghost predicate EmptyLog(s: State) {
    s.events == [] && s.lastSeq == 0 && s.lastSig == None
  }

  ghost predicate SameChain(s: State, s': State) {
    s'.events == s.events && s'.lastSeq == s.lastSeq && s'.lastSig == s.lastSig
  }

  // `s'` has one event more, drafted against the head of `s`.
  ghost predicate OneMore(env: Env, s: State, s': State, e: Event) {
    && s'.events == s.events + [e] && s'.lastSeq == e.seqNo && s'.lastSig == e.sig
    && e.seqNo == s.lastSeq + 1 && e.prevHash == Some(PrevHashFrom(env.hash, s.lastSig)) && e.serviceId == None
  }

  // The key a step signs with.
  function KeyOf(env: Env, a: Action): Option<string> {
    match a
    case Append(key, _, _, _) => Some(key)
    case Decommission(_, _, key, _) => Some(key)
    case _ => env.signingKey
  }

  ghost predicate SignedBy(env: Env, key: Option<string>, e: Event) {
    e.sig.Some? ==> key.Some? && e.sig == env.sign(key.value, e.(sig := None))
  }

  predicate IsRouteEvent(e: Event) {
    e.eventType == "REACHABILITY_RESTORE" || e.eventType == "REACHABILITY_DEMOTE"
  }

  // What a step does to the log: nothing, or one event under the step's key.
  ghost predicate Extends(env: Env, s: State, s': State, key: Option<string>) {
    SameChain(s, s')
    || (s'.events != [] && OneMore(env, s, s', s'.events[|s'.events| - 1])
      && SignedBy(env, key, s'.events[|s'.events| - 1]))
  }

  lemma DraftExtends(env: Env, s: State, base: State, key: string, draft: Event)
    requires SameChain(s, base) && draft.sig == None && draft.serviceId == None
    requires draft.seqNo == s.lastSeq + 1 && draft.prevHash == Some(PrevHashFrom(env.hash, s.lastSig))
    ensures Extends(env, s, AppendDraft(base, draft, env.sign(key, draft)), Some(key))
  {
    var s' := AppendDraft(base, draft, env.sign(key, draft));
    var e := s'.events[|s'.events| - 1];
    assert e == draft.(sig := env.sign(key, draft)) && e.(sig := None) == draft;
  }

  lemma HeartbeatExtends(env: Env, s: State, node: string, beat: Beat, id: string, nowMs: int)
    ensures Extends(env, s, HeartbeatStep(env, s, node, beat, id, nowMs), env.signingKey)
  {
    if node in s.nodes && s.nodes[node].status == "dormant" && env.signingKey.Some? {
      var row := s.nodes[node];
      var base := s.(nodes := s.nodes[node := BeatRow(row, beat, nowMs)]);
      var payload := ReactivatePayload(row.dormantSince, nowMs);
      var draft := Draft(env, s.lastSeq, s.lastSig, id, "REACTIVATE", node, payload, nowMs);
      DraftExtends(env, s, base, env.signingKey.value, draft);
    }
  }

  lemma ProbeExtends(env: Env, s: State, node: string, passed: bool, id: string, nowMs: int)
    ensures Extends(env, s, ProbeStep(env, s, node, passed, id, nowMs), env.signingKey)
  {
    if node in s.nodes && env.signingKey.Some? {
      var row, key := s.nodes[node], env.signingKey.value;
      var up := s.(nodes := s.nodes[node := row.(publicReachable := true, deadSince := None)]);
      var down := s.(nodes := s.nodes[node := row.(publicReachable := false, deadSince := Some(nowMs / 1000))]);
      var restore := RestorePayload(row.publicReachable, row.deadSince.Some?);
      DraftExtends(env, s, up, key, Draft(env, s.lastSeq, s.lastSig, id, "REACHABILITY_RESTORE", node, restore, nowMs));
      DraftExtends(env, s, down, key,
                   Draft(env, s.lastSeq, s.lastSig, id, "REACHABILITY_DEMOTE", node, DEMOTE_PAYLOAD, nowMs));
    }
  }

  lemma DecommissionExtends(env: Env, s: State, a: Action, id: string, nowMs: int)
    requires a.Decommission?
    ensures Extends(env, s, DecommissionStep(env, s, a, id, nowMs), Some(a.key))
  {
    var gone := ReplicaRow("decommissioned", nowMs / 1000, a.tombstone);
    var payload := Obj([Member("did", Str(a.did))]);
    DraftExtends(env, s, s.(replicas := s.replicas[a.replicaId := gone]), a.key,
                 Draft(env, s.lastSeq, s.lastSig, id, "REPLICA_DEREGISTERED", a.replicaId, payload, nowMs));
  }

  lemma StepExtends(env: Env, s: State, step: Step)
    ensures Extends(env, s, Next(env, s, step), KeyOf(env, step.action))
  {
    match step.action
    case Append(key, ty, node, payload) =>
      DraftExtends(env, s, s, key, Draft(env, s.lastSeq, s.lastSig, step.eventId, ty, node, payload, step.nowMs));
    case Heartbeat(node, beat) => HeartbeatExtends(env, s, node, beat, step.eventId, step.nowMs);
    case Probe(node, passed) => ProbeExtends(env, s, node, passed, step.eventId, step.nowMs);
    case Decommission(_, _, _, _) => DecommissionExtends(env, s, step.action, step.eventId, step.nowMs);
    case MarkDormant(ids) =>
    case Restrict(ids) =>
  }

  lemma ExtendsKeepsChain(env: Env, s: State, s': State, key: Option<string>)
    requires ChainOk(env, s) && Extends(env, s, s', key)
    ensures ChainOk(env, s') && s.events <= s'.events
  {
    if s'.events != s.events {
      forall i | 0 <= i < |s'.events|
        ensures RowOk(env.hash, s'.events, i)
      {
        assert s'.events[..i] == s.events[..i];
        if i < |s.events| {
          assert RowOk(env.hash, s.events, i);
        } else {
          assert s.events[..i] == s.events;
        }
      }
    }
  }

  // Every run keeps the chain and only ever adds to the log, whoever signs.
  lemma {:induction false} RunKeepsChain(env: Env, s: State, steps: seq<Step>)
    requires ChainOk(env, s)
    ensures ChainOk(env, Run(env, s, steps)) && s.events <= Run(env, s, steps).events
  {
    if steps != [] {
      var n := |steps| - 1;
      RunKeepsChain(env, s, steps[..n]);
      StepExtends(env, Run(env, s, steps[..n]), steps[n]);
      ExtendsKeepsChain(env, Run(env, s, steps[..n]), Run(env, s, steps), KeyOf(env, steps[n].action));
    }
  }

  // ---- Signatures under the directory's own key ----

  // What the directory signs under its own key verifies under the auditor's scheme.
  ghost predicate SignerMatches(env: Env, sch: Scheme) {
    env.hash == sch.hash && (env.signingKey.Some? ==> KeyMatches(env, sch, env.signingKey.value))
  }

  ghost predicate KeyMatches(env: Env, sch: Scheme, key: string) {
    forall draft: Event ::
      Draftable(draft) && env.sign(key, draft).Some? ==> VerifyEvent(sch, draft.(sig := env.sign(key, draft)))
  }

  ghost predicate Draftable(e: Event) {
    e.serviceId == None && e.sig == None && e.prevHash.Some? && e.prevHash.value != ""
  }

  ghost predicate NonEmptyDigests(env: Env) {
    forall x :: env.hash(x) != ""
  }

  // A malformed key signs nothing.
  ghost predicate NeverSigns(env: Env, key: string) {
    forall draft :: env.sign(key, draft) == None
  }

  // The step signs with the directory's own key, or with one that does not sign.
  ghost predicate OwnKey(env: Env, step: Step) {
    var key := KeyOf(env, step.action);
    key == env.signingKey || (key.Some? && NeverSigns(env, key.value))
  }

  ghost predicate OwnKeys(env: Env, steps: seq<Step>) {
    forall i :: 0 <= i < |steps| ==> OwnKey(env, steps[i])
  }

  // Every signature in the log verifies.
  ghost predicate SignaturesOk(sch: Scheme, events: seq<Event>) {
    forall i :: 0 <= i < |events| && HasSignature(events[i]) ==> VerifyEvent(sch, events[i])
  }

  ghost predicate Good(env: Env, sch: Scheme, s: State) {
    ChainOk(env, s) && SignaturesOk(sch, s.events)
  }

  lemma OwnSignatureVerifies(env: Env, sch: Scheme, key: Option<string>, e: Event)
    requires SignerMatches(env, sch) && NonEmptyDigests(env) && SignedBy(env, key, e) && HasSignature(e)
    requires key == env.signingKey || (key.Some? && NeverSigns(env, key.value))
    requires e.serviceId == None && exists sig :: e.prevHash == Some(PrevHashFrom(env.hash, sig))
    ensures VerifyEvent(sch, e)
  {
    var draft := e.(sig := None);
    assert Draftable(draft) && draft.(sig := env.sign(key.value, draft)) == e;
  }

  lemma ExtendsKeepsGood(env: Env, sch: Scheme, s: State, s': State, key: Option<string>)
    requires SignerMatches(env, sch) && NonEmptyDigests(env) && Good(env, sch, s) && Extends(env, s, s', key)
    requires key == env.signingKey || (key.Some? && NeverSigns(env, key.value))
    ensures Good(env, sch, s')
  {
    ExtendsKeepsChain(env, s, s', key);
    if s'.events != s.events {
      var e := s'.events[|s'.events| - 1];
      if HasSignature(e) {
        OwnSignatureVerifies(env, sch, key, e);
      }
    }
  }

  lemma StepKeepsGood(env: Env, sch: Scheme, s: State, step: Step)
    requires SignerMatches(env, sch) && NonEmptyDigests(env) && Good(env, sch, s) && OwnKey(env, step)
    ensures Good(env, sch, Next(env, s, step))
  {
    StepExtends(env, s, step);
    ExtendsKeepsGood(env, sch, s, Next(env, s, step), KeyOf(env, step.action));
  }

  lemma {:induction false} RunKeepsGood(env: Env, sch: Scheme, s: State, steps: seq<Step>)
    requires SignerMatches(env, sch) && NonEmptyDigests(env) && Good(env, sch, s) && OwnKeys(env, steps)
    ensures Good(env, sch, Run(env, s, steps))
  {
    if steps != [] {
      var n := |steps| - 1;
      RunKeepsGood(env, sch, s, steps[..n]);
      assert OwnKey(env, steps[n]);
      StepKeepsGood(env, sch, Run(env, s, steps[..n]), steps[n]);
    }
  }

  // ---- The audit of a chained log ----

  // The auditor's verdicts when every signature verifies: unsigned events are reported
  // unsigned and all the others verify; the chain restarts where the log restarts it.
  lemma {:induction false} GoodLogVerdicts(sch: Scheme, events: seq<Event>)
    requires RowsOk(sch.hash, events) && SignaturesOk(sch, events)
    ensures forall i :: 0 <= i < |events| ==>
              Verdicts(sch, events)[i] == if HasSignature(events[i]) then Verified else Unsigned
    ensures PrevHashFrom(sch.hash, Held(events, Verdicts(sch, events))) == PrevHashFrom(sch.hash, LastSig(events))
  {
    if events != [] {
      var n := |events| - 1;
      RowsOfPrefix(sch.hash, events);
      GoodLogVerdicts(sch, events[..n]);
      assert RowOk(sch.hash, events, n);
    }
  }

  lemma RowsOfPrefix(hash: string -> string, events: seq<Event>)
    requires RowsOk(hash, events) && events != []
    ensures RowsOk(hash, events[..|events| - 1])
  {
    var n := |events| - 1;
    forall i | 0 <= i < n
      ensures RowOk(hash, events[..n], i)
    {
      assert RowOk(hash, events, i) && events[..n][..i] == events[..i];
    }
  }

  ghost function SignedCount(events: seq<Event>): nat {
    if events == [] then 0
    else SignedCount(events[..|events| - 1]) + if HasSignature(events[|events| - 1]) then 1 else 0
  }

  lemma {:induction false} CountsOf(events: seq<Event>, vs: seq<Verdict>)
    requires |events| == |vs|
    requires forall i :: 0 <= i < |events| ==> vs[i] == if HasSignature(events[i]) then Verified else Unsigned
    ensures Count(vs, BrokenChain) == 0 && Count(vs, BadSignature) == 0
    ensures Count(vs, Verified) == SignedCount(events) && Count(vs, Unsigned) == |events| - SignedCount(events)
  {
    if events != [] {
      var n := |events| - 1;
      assert vs == vs[..n] + [vs[n]];
      CountsOf(events[..n], vs[..n]);
    }
  }

  // Whatever the auditor holds, an event it calls verified does verify, and one that
  // carries a signature is not called unsigned.
  lemma {:induction false} VerdictsAreEarned(sch: Scheme, events: seq<Event>, i: nat)
    requires i < |events|
    ensures Verdicts(sch, events)[i] == Verified ==> VerifyEvent(sch, events[i])
    ensures Verdicts(sch, events)[i] == Unsigned ==> !HasSignature(events[i])
  {
    var n := |events| - 1;
    if i < n {
      VerdictsAreEarned(sch, events[..n], i);
    }
  }

  // On a chained log the auditor finds nothing wrong exactly when every signature verifies.
  lemma CleanIffSignaturesOk(sch: Scheme, events: seq<Event>, r: Report)
    requires RowsOk(sch.hash, events) && Tallies(r, events, Verdicts(sch, events))
    ensures r.chainFailures == 0 && r.invalid == 0 <==> SignaturesOk(sch, events)
    ensures SignaturesOk(sch, events)
      ==> r.verified == SignedCount(events) && r.unsigned == |events| - SignedCount(events)
  {
    var vs := Verdicts(sch, events);
    if SignaturesOk(sch, events) {
      GoodLogVerdicts(sch, events);
      CountsOf(events, vs);
    }
    if r.chainFailures == 0 && r.invalid == 0 {
      forall i | 0 <= i < |events| && HasSignature(events[i])
        ensures VerifyEvent(sch, events[i])
      {
        VerdictsAreEarned(sch, events, i);
        assert vs[i] in multiset(vs);
      }
    }
  }

  // The audit of any run from an empty log, whoever signed: it is clean exactly when every
  // signature in the log verifies.
  lemma AuditOfAnyRun(env: Env, sch: Scheme, s: State, steps: seq<Step>, r: Report)
    requires env.hash == sch.hash && EmptyLog(s)
    requires var log := Run(env, s, steps).events; Tallies(r, log, Verdicts(sch, log))
    ensures r.chainFailures == 0 && r.invalid == 0 <==> SignaturesOk(sch, Run(env, s, steps).events)
  {
    RunKeepsChain(env, s, steps);
    CleanIffSignaturesOk(sch, Run(env, s, steps).events, r);
  }

  // The audit of a run whose appends use the directory's own key, or a malformed one: no
  // chain failure, no invalid signature, and exactly the signed events verified.
  lemma AuditOfRun(env: Env, sch: Scheme, s: State, steps: seq<Step>, r: Report)
    requires SignerMatches(env, sch) && NonEmptyDigests(env) && EmptyLog(s) && OwnKeys(env, steps)
    requires var log := Run(env, s, steps).events; Tallies(r, log, Verdicts(sch, log))
    ensures r.chainFailures == 0 && r.invalid == 0
    ensures r.verified == SignedCount(Run(env, s, steps).events)
    ensures r.unsigned + r.verified == |Run(env, s, steps).events|
  {
    RunKeepsGood(env, sch, s, steps);
    CleanIffSignaturesOk(sch, Run(env, s, steps).events, r);
  }

  // ---- The log as evidence of route state ----

  ghost function LastRoute(events: seq<Event>, node: string): Option<bool> {
    if events == [] then None
    else
      var e := events[|events| - 1];
      if e.nodeId == node && IsRouteEvent(e) then Some(e.eventType == "REACHABILITY_RESTORE")
      else LastRoute(events[..|events| - 1], node)
  }

  // Only probes append reachability events.
  ghost predicate NoForgedRoute(a: Action) {
    a.Append? ==> a.eventType != "REACHABILITY_RESTORE" && a.eventType != "REACHABILITY_DEMOTE"
  }

  ghost predicate NoForgedRoutes(steps: seq<Step>) {
    forall i :: 0 <= i < |steps| ==> NoForgedRoute(steps[i].action)
  }

  // The route the log says a node has: its last reachability event's, or its first.
  ghost function RecordedRoute(s0: State, events: seq<Event>, node: string): bool
    requires node in s0.nodes
  {
    var last := LastRoute(events, node);
    if last.Some? then last.value else s0.nodes[node].publicReachable
  }

  // What a step does to the route of a node and to what the log says of it.
  datatype Turn = Kept | Recorded(to: bool) | Silenced

  ghost function TurnOf(s: State, step: Step, s': State, node: string): Turn {
    if s'.events != s.events && s'.events != [] && s'.events[|s'.events| - 1].nodeId == node
      && IsRouteEvent(s'.events[|s'.events| - 1])
    then Recorded(s'.events[|s'.events| - 1].eventType == "REACHABILITY_RESTORE")
    else if step.commits && step.action.Restrict? && node in step.action.ids then Silenced
    else Kept
  }

  ghost predicate TurnsRoute(s: State, s': State, node: string, t: Turn) {
    && node in s.nodes && node in s'.nodes
    && s'.nodes[node].publicReachable
      == (match t case Kept => s.nodes[node].publicReachable case Recorded(to) => to case Silenced => false)
    && LastRoute(s'.events, node) == (if t.Recorded? then Some(t.to) else LastRoute(s.events, node))
  }

  // One draft more: the last route is the draft's, or what it was.
  lemma LastRouteOfAppend(events: seq<Event>, e: Event, node: string)
    ensures LastRoute(events + [e], node) ==
            if e.nodeId == node && IsRouteEvent(e) then Some(e.eventType == "REACHABILITY_RESTORE")
            else LastRoute(events, node)
  {
    assert (events + [e])[..|events|] == events;
  }

  lemma AppendTurns(env: Env, s: State, step: Step, node: string)
    requires step.action.Append? && NoForgedRoute(step.action) && node in s.nodes
    ensures TurnsRoute(s, Next(env, s, step), node, TurnOf(s, step, Next(env, s, step), node))
  {
    var a := step.action;
    var draft := Draft(env, s.lastSeq, s.lastSig, step.eventId, a.eventType, a.nodeId, a.payload, step.nowMs);
    LastRouteOfAppend(s.events, draft.(sig := env.sign(a.key, draft)), node);
  }

  lemma HeartbeatTurns(env: Env, s: State, step: Step, node: string)
    requires step.action.Heartbeat? && node in s.nodes
    ensures TurnsRoute(s, Next(env, s, step), node, TurnOf(s, step, Next(env, s, step), node))
  {
    var s' := Next(env, s, step);
    if s'.events != s.events {
      var e := s'.events[|s'.events| - 1];
      assert s'.events == s.events + [e] && e.eventType == "REACTIVATE";
      LastRouteOfAppend(s.events, e, node);
    }
  }

  lemma ProbeTurns(env: Env, s: State, step: Step, node: string)
    requires step.action.Probe? && node in s.nodes
    ensures TurnsRoute(s, Next(env, s, step), node, TurnOf(s, step, Next(env, s, step), node))
  {
    var s' := Next(env, s, step);
    if s'.events != s.events {
      var e := s'.events[|s'.events| - 1];
      assert s'.events == s.events + [e] && e.nodeId == step.action.nodeId;
      assert e.eventType == if step.action.passed then "REACHABILITY_RESTORE" else "REACHABILITY_DEMOTE";
      LastRouteOfAppend(s.events, e, node);
    }
  }

  lemma DecommissionTurns(env: Env, s: State, step: Step, node: string)
    requires step.action.Decommission? && node in s.nodes
    ensures TurnsRoute(s, Next(env, s, step), node, TurnOf(s, step, Next(env, s, step), node))
  {
    var s' := Next(env, s, step);
    if s'.events != s.events {
      var e := s'.events[|s'.events| - 1];
      assert s'.events == s.events + [e] && e.eventType == "REPLICA_DEREGISTERED";
      LastRouteOfAppend(s.events, e, node);
    }
  }

  lemma StepTurns(env: Env, s: State, step: Step, node: string)
    requires NoForgedRoute(step.action) && node in s.nodes
    ensures TurnsRoute(s, Next(env, s, step), node, TurnOf(s, step, Next(env, s, step), node))
  {
    match step.action
    case Append(_, _, _, _) => AppendTurns(env, s, step, node);
    case Heartbeat(_, _) => HeartbeatTurns(env, s, step, node);
    case Probe(_, _) => ProbeTurns(env, s, step, node);
    case Decommission(_, _, _, _) => DecommissionTurns(env, s, step, node);
    case MarkDormant(_) =>
    case Restrict(_) =>
  }

  // Whether a restriction has silenced the node since its last reachability event.
  ghost function SilencedSince(env: Env, s: State, steps: seq<Step>, node: string): bool {
    if steps == [] then false
    else
      var n := |steps| - 1;
      match TurnOf(Run(env, s, steps[..n]), steps[n], Run(env, s, steps), node)
      case Kept => SilencedSince(env, s, steps[..n], node)
      case Recorded(_) => false
      case Silenced => true
  }

  lemma {:induction false} RoutesOverRun(env: Env, s0: State, steps: seq<Step>, node: string)
    requires s0.events == [] && node in s0.nodes && NoForgedRoutes(steps)
    ensures var s := Run(env, s0, steps);
            && node in s.nodes
            && s.nodes[node].publicReachable
              == (RecordedRoute(s0, s.events, node) && !SilencedSince(env, s0, steps, node))
  {
    if steps != [] {
      var n := |steps| - 1;
      RoutesOverRun(env, s0, steps[..n], node);
      assert NoForgedRoute(steps[n].action);
      StepTurns(env, Run(env, s0, steps[..n]), steps[n], node);
    }
  }

  // A node's route is what the log says of it exactly unless a restriction, which writes
  // no event, has taken an open route away since.
  lemma RoutesAreRecorded(env: Env, s0: State, steps: seq<Step>, node: string)
    requires s0.events == [] && node in s0.nodes && NoForgedRoutes(steps)
    ensures var s := Run(env, s0, steps);
            && node in s.nodes
            && (s.nodes[node].publicReachable == RecordedRoute(s0, s.events, node)
                <==> !(SilencedSince(env, s0, steps, node) && RecordedRoute(s0, s.events, node)))
  {
    RoutesOverRun(env, s0, steps, node);
  }

  // ---- The reputation budget ----

  ghost predicate BudgetOk(row: RouteRow) {
    0.0 <= row.hourlyGain <= MAX_HOURLY_GAIN && 0.0 <= row.reputation
  }

  // Whether the step is a heartbeat of `node` that takes effect.
  ghost predicate Beats(env: Env, s: State, step: Step, node: string) {
    && step.commits && step.action.Heartbeat? && step.action.nodeId == node && node in s.nodes
    && BeatGoes(env, s, node, step.action.beat, step.eventId, step.nowMs)
  }

  // A heartbeat fails as a whole when its reactivation event cannot be signed.
  ghost predicate BeatGoes(env: Env, s: State, node: string, beat: Beat, id: string, nowMs: int)
    requires node in s.nodes
  {
    var row := s.nodes[node];
    row.status == "dormant" && env.signingKey.Some? ==>
      env.sign(env.signingKey.value,
               Draft(env, s.lastSeq, s.lastSig, id, "REACTIVATE", node, ReactivatePayload(row.dormantSince, nowMs),
                 nowMs)).Some?
  }

  // The positive effective delta the step credits to `node`.
  ghost function Gain(env: Env, s: State, step: Step, node: string): real {
    if Beats(env, s, step, node)
    then Max(BeatThrottle(s.nodes[node], step.action.beat, step.nowMs).effective, 0.0) else 0.0
  }

  ghost predicate Resets(env: Env, s: State, step: Step, node: string) {
    Beats(env, s, step, node) && BeatThrottle(s.nodes[node], step.action.beat, step.nowMs).reset
  }

  ghost function Gains(env: Env, s: State, steps: seq<Step>, node: string): real {
    if steps == [] then 0.0
    else
      var n := |steps| - 1;
      Gains(env, s, steps[..n], node) + Gain(env, Run(env, s, steps[..n]), steps[n], node)
  }

  ghost function ResetCount(env: Env, s: State, steps: seq<Step>, node: string): nat {
    if steps == [] then 0
    else
      var n := |steps| - 1;
      ResetCount(env, s, steps[..n], node) + if Resets(env, Run(env, s, steps[..n]), steps[n], node) then 1 else 0
  }

  ghost predicate SameBudget(row: RouteRow, row': RouteRow) {
    row'.hourlyGain == row.hourlyGain && row'.windowStart == row.windowStart && row'.reputation == row.reputation
  }

  lemma HeartbeatBudget(env: Env, s: State, target: string, beat: Beat, id: string, nowMs: int, node: string)
    requires node in s.nodes
    ensures var s' := HeartbeatStep(env, s, target, beat, id, nowMs);
            && node in s'.nodes
            && if target == node && BeatGoes(env, s, node, beat, id, nowMs)
               then s'.nodes[node] == BeatRow(s.nodes[node], beat, nowMs) else s'.nodes[node] == s.nodes[node]
  {
  }

  lemma ProbeBudget(env: Env, s: State, target: string, passed: bool, id: string, nowMs: int, node: string)
    requires node in s.nodes
    ensures var s' := ProbeStep(env, s, target, passed, id, nowMs);
            node in s'.nodes && SameBudget(s.nodes[node], s'.nodes[node])
  {
  }

  // One step changes the budget of a node only as its heartbeat does.
  lemma StepBudget(env: Env, s: State, step: Step, node: string)
    requires node in s.nodes
    ensures var s' := Next(env, s, step);
            && node in s'.nodes
            && if Beats(env, s, step, node) then s'.nodes[node] == BeatRow(s.nodes[node], step.action.beat, step.nowMs)
               else SameBudget(s.nodes[node], s'.nodes[node])
  {
    match step.action
    case Heartbeat(target, beat) => HeartbeatBudget(env, s, target, beat, step.eventId, step.nowMs, node);
    case Probe(target, passed) => ProbeBudget(env, s, target, passed, step.eventId, step.nowMs, node);
    case _ =>
  }

  // The account kept while a span of the run is walked: what was credited is covered by
  // the windows opened in the span and the one open now.
  ghost predicate Covered(row: RouteRow, gains: real, k: nat, reputation: real, from: int) {
    && BudgetOk(row)
    && 0.0 <= gains <= MAX_HOURLY_GAIN * k as real + row.hourlyGain
    && row.reputation <= reputation + gains
    && (k > 0 ==> row.windowStart.Some? && row.windowStart.value >= from / 1000 + 3600 * (k - 1))
  }

  lemma BeatCovers(row: RouteRow, beat: Beat, nowMs: int, gains: real, k: nat, reputation: real, from: int)
    requires Covered(row, gains, k, reputation, from) && from <= nowMs
    ensures var t := BeatThrottle(row, beat, nowMs);
            Covered(BeatRow(row, beat, nowMs), gains + Max(t.effective, 0.0), if t.reset then k + 1 else k,
                    reputation, from)
  {
  }

  lemma {:induction false} SpanAccount(env: Env, s: State, steps: seq<Step>, node: string, from: int)
    requires node in s.nodes && BudgetOk(s.nodes[node])
    requires forall i :: 0 <= i < |steps| ==> from <= steps[i].nowMs
    ensures var nodes := Run(env, s, steps).nodes;
            && node in nodes
            && Covered(nodes[node], Gains(env, s, steps, node), ResetCount(env, s, steps, node),
              s.nodes[node].reputation, from)
  {
    if steps != [] {
      var n := |steps| - 1;
      SpanAccount(env, s, steps[..n], node, from);
      var before, step := Run(env, s, steps[..n]), steps[n];
      StepBudget(env, before, step, node);
      if Beats(env, before, step, node) {
        BeatCovers(before.nodes[node], step.action.beat, step.nowMs, Gains(env, s, steps[..n], node),
                   ResetCount(env, s, steps[..n], node), s.nodes[node].reputation, from);
      }
    }
  }

  // After a reset the window start is one of the span's clock readings.
  lemma {:induction false} WindowFromSpan(env: Env, s: State, steps: seq<Step>, node: string, until: int)
    requires node in s.nodes
    requires forall i :: 0 <= i < |steps| ==> steps[i].nowMs <= until
    ensures node in Run(env, s, steps).nodes
    ensures ResetCount(env, s, steps, node) > 0 ==>
              var w := Run(env, s, steps).nodes[node].windowStart; w.Some? && w.value <= until / 1000
  {
    if steps != [] {
      var n := |steps| - 1;
      WindowFromSpan(env, s, steps[..n], node, until);
      StepBudget(env, Run(env, s, steps[..n]), steps[n], node);
    }
  }

  // In any stretch of a run whose clock readings lie within `seconds`, a node is credited
  // at most 0.20 for every hour begun and one more, and its reputation rises no further.
  lemma VelocityBound(env: Env, s: State, steps: seq<Step>, node: string, from: int, seconds: nat)
    requires node in s.nodes && BudgetOk(s.nodes[node])
    requires forall i :: 0 <= i < |steps| ==> from <= steps[i].nowMs <= from + 1000 * seconds
    ensures node in Run(env, s, steps).nodes && BudgetOk(Run(env, s, steps).nodes[node])
    ensures Gains(env, s, steps, node) <= MAX_HOURLY_GAIN * (seconds / 3600 + 2) as real
    ensures Run(env, s, steps).nodes[node].reputation
         <= s.nodes[node].reputation + MAX_HOURLY_GAIN * (seconds / 3600 + 2) as real
  {
    SpanAccount(env, s, steps, node, from);
    WindowFromSpan(env, s, steps, node, from + 1000 * seconds);
    WindowsInSpan(ResetCount(env, s, steps, node), from, seconds, Run(env, s, steps).nodes[node].windowStart);
  }

  lemma WindowsInSpan(k: nat, from: int, seconds: nat, start: Option<int>)
    requires k > 0 ==> start.Some? && from / 1000 + 3600 * (k - 1) <= start.value <= (from + 1000 * seconds) / 1000
    ensures k <= seconds / 3600 + 1
  {
    assert (from + 1000 * seconds) / 1000 == from / 1000 + seconds;
  }
}
