// The container engine as a caller with timeouts meets it: a command that failed may never
// act, may have acted already, or may act later.
module ContainerEngine {

  datatype Command = Pause | Unpause | Ack(sequence: int, nonce: string)

  // `flying` are the timed-out commands that may still act; `log` those that have acted.
  datatype Engine = Engine(paused: bool, flying: set<Command>, log: seq<Command>)

  const RUNNING := Engine(false, {}, [])

  // A pause acts on a running container only, an unpause on a paused one only.
  predicate Applies(e: Engine, c: Command) {
    match c
    case Pause => !e.paused
    case Unpause => e.paused
    case Ack(_, _) => true
  }

  function Acted(e: Engine, c: Command): Engine {
    e.(paused := if c.Ack? then e.paused else c.Pause?, log := e.log + [c])
  }

  function Landed(e: Engine, c: Command): Engine {
    var rest := e.(flying := e.flying - {c});
    if Applies(e, c) then Acted(rest, c) else rest
  }

  // Some timed-out commands act, in some order.
  ghost predicate Drifts(e: Engine, e': Engine)
    decreases |e.flying|
  {
    e' == e || exists c :: c in e.flying && Drifts(Landed(e, c), e')
  }

  // One call: lost, timed out, carried out with or without a reply, or refused. `strict`
  // says whether the engine refuses to unpause a running container; a lax one answers
  // that all is well.
  predicate Performs(strict: bool, e: Engine, c: Command, ok: bool, e': Engine) {
    || (!ok && e' == e)
    || (!ok && e' == e.(flying := e.flying + {c}))
    || (Applies(e, c) && e' == Acted(e, c))
    || (!Applies(e, c) && e' == e && ok && c == Unpause && !strict)
  }

  ghost predicate PausedAfter(log: seq<Command>) {
    log != [] && (log[|log| - 1] == Pause || (log[|log| - 1].Ack? && PausedAfter(log[..|log| - 1])))
  }

  // The state is what the commands that acted made it, and a pause is asked for once.
  ghost predicate Consistent(e: Engine) {
    e.paused == PausedAfter(e.log) && (Pause in e.flying ==> Pause !in e.log)
  }

  ghost predicate NoPauseYet(e: Engine) {
    Pause !in e.flying && Pause !in e.log
  }

  // The container runs and nothing outstanding can pause it.
  predicate AtRest(e: Engine) {
    !e.paused && Pause !in e.flying
  }

  lemma {:induction false} PausedMeansPauseActed(log: seq<Command>)
    ensures PausedAfter(log) ==> Pause in log
  {
    if log != [] {
      PausedMeansPauseActed(log[..|log| - 1]);
    }
  }

  lemma ActedIsConsistent(e: Engine, c: Command)
    requires Consistent(e) && (c == Pause ==> Pause !in e.flying)
    ensures Consistent(Acted(e, c))
  {
    assert (e.log + [c])[..|e.log|] == e.log;
  }

  lemma LandedIsConsistent(e: Engine, c: Command)
    requires Consistent(e) && c in e.flying
    ensures Consistent(Landed(e, c))
  {
    var rest := e.(flying := e.flying - {c});
    if Applies(e, c) {
      ActedIsConsistent(rest, c);
    }
  }

  // What drifting keeps; with nothing outstanding, everything.
  lemma {:induction false} DriftKeeps(e: Engine, e': Engine)
    requires Consistent(e) && Drifts(e, e')
    ensures Consistent(e') && e'.flying <= e.flying
    ensures AtRest(e) ==> AtRest(e')
    ensures NoPauseYet(e) ==> NoPauseYet(e')
    ensures e.flying == {} ==> e' == e
    decreases |e.flying|
  {
    if e' != e {
      var c :| c in e.flying && Drifts(Landed(e, c), e');
      LandedIsConsistent(e, c);
      DriftKeeps(Landed(e, c), e');
    }
  }

  lemma PerformKeeps(strict: bool, e: Engine, c: Command, ok: bool, e': Engine)
    requires Consistent(e) && Performs(strict, e, c, ok, e') && (c == Pause ==> NoPauseYet(e))
    ensures Consistent(e')
    ensures ok ==> e'.flying == e.flying
    ensures c != Pause && AtRest(e) ==> AtRest(e')
  {
    if Applies(e, c) && e' == Acted(e, c) {
      ActedIsConsistent(e, c);
    }
  }

  // An unpause that is answered leaves nothing that can pause the container later exactly
  // when no pause is outstanding.
  lemma UnpauseSettles(strict: bool, e: Engine, e': Engine)
    requires Consistent(e) && Performs(strict, e, Unpause, true, e')
    ensures AtRest(e') <==> Pause !in e.flying
    ensures strict ==> AtRest(e')
  {
    PausedMeansPauseActed(e.log);
  }

  // So an engine can be trusted with the recovery exactly when it is strict.
  lemma UnpauseIsFinalIffStrict(strict: bool)
    ensures strict <==> forall e, e' :: Consistent(e) && Performs(strict, e, Unpause, true, e') ==> AtRest(e')
  {
    forall e, e' | strict && Consistent(e) && Performs(strict, e, Unpause, true, e')
      ensures AtRest(e')
    {
      UnpauseSettles(strict, e, e');
    }
    if !strict {
      var late := RUNNING.(flying := {Pause});
      assert Consistent(late) && Performs(strict, late, Unpause, true, late) && !AtRest(late);
    }
  }

  // A pause times out on a lax engine, the recovery unpauses and sees the container
  // running, and then the pause acts.
  lemma LaxEnginePausesAfterRecovery() returns (timedOut: Engine, recovered: Engine, later: Engine)
    ensures Performs(false, RUNNING, Pause, false, timedOut) && Performs(false, timedOut, Unpause, true, recovered)
    ensures !recovered.paused && Drifts(recovered, later) && later.paused
  {
    timedOut := RUNNING.(flying := {Pause});
    recovered := timedOut;
    later := Landed(recovered, Pause);
    assert Drifts(later, later);
  }
}
