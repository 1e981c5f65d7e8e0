// The owner that pauses and resumes an application on a probe's request and must leave
// it running, whatever command fails on the way.
module OutageOwner {
  import opened Text
  import opened ContainerEngine

  // What the probe's control file holds when it is read.
  datatype Reply = Failed | NoRequest | Request(schema: string, sequence: int, action: string, nonce: string)

  // What a call answered, as far as it can be a reason to give up.
  datatype Answer = Done(ok: bool) | Seen(paused: Option<bool>) | Read(sequence: int, known: Option<string>,
    reply: Reply)

  // When the loop came round, and for which step.
  datatype Round = Round(step: int, at: int)

  datatype Outcome = Returned(nonce: string, observed: seq<string>) | Raised

  const SCHEMA := "iicp.directory-outage-control.v1"
  const PATIENCE := 1800
  const STEP_PATIENCE := 150

  predicate IsNonce(s: string) {
    |s| == 32 && forall i :: 0 <= i < 32 ==> '0' <= s[i] <= '9' || 'a' <= s[i] <= 'f'
  }

  function ActionOf(sequence: int): string {
    if sequence == 1 then "pause" else "resume"
  }

  function CommandOf(sequence: int): Command {
    if sequence == 1 then Pause else Unpause
  }

  // A request for the step asked for, under the nonce already known if there is one.
  predicate Acceptable(sequence: int, known: Option<string>, reply: Reply) {
    && reply.Request? && reply.schema == SCHEMA && reply.sequence == sequence && reply.action == ActionOf(sequence)
    && IsNonce(reply.nonce) && (known.None? || known.value == reply.nonce)
  }

  // The request of the schema for this step, under 32 hexadecimal digits and no others than
  // before.
  ghost predicate Asks(reply: Reply, sequence: int, known: Option<string>) {
    && reply.Request? && reply.schema == "iicp.directory-outage-control.v1" && reply.sequence == sequence
    && reply.action == (if sequence == 1 then "pause" else "resume")
    && |reply.nonce| == 32 && (forall c :: c in reply.nonce ==> c in "0123456789abcdef")
    && (known.Some? ==> known.value == reply.nonce)
  }

  lemma AcceptableMeans(sequence: int, known: Option<string>, reply: Reply)
    ensures Acceptable(sequence, known, reply) <==> Asks(reply, sequence, known)
  {
    assert forall c: char :: c in "0123456789abcdef" <==> '0' <= c <= '9' || 'a' <= c <= 'f';
    if reply.Request? && Asks(reply, sequence, known) {
      assert forall i :: 0 <= i < |reply.nonce| ==> reply.nonce[i] in reply.nonce;
    }
  }

  // A failed command or inspection, or a request that is not acceptable.
  predicate Trouble(a: Answer) {
    match a
    case Done(ok) => !ok
    case Seen(paused) => paused.None?
    case Read(sequence, known, reply) => !reply.NoRequest? && !Acceptable(sequence, known, reply)
  }

  ghost predicate Troubled(answers: seq<Answer>) {
    exists i :: 0 <= i < |answers| && Trouble(answers[i])
  }

  lemma TroubledStays(a: seq<Answer>, b: seq<Answer>)
    requires a <= b
    ensures Troubled(a) ==> Troubled(b)
  {
    if Troubled(a) {
      var i :| 0 <= i < |a| && Trouble(a[i]);
      assert Trouble(b[i]);
    }
  }

  lemma TroubledBy(answers: seq<Answer>, a: Answer)
    requires Trouble(a)
    ensures Troubled(answers + [a])
  {
    assert (answers + [a])[|answers|] == a;
  }

  // No round may begin later: 1800 seconds after the start, or 150 after the pause.
  ghost function Due(start: int, ended: seq<int>): int {
    if ended == [] || start + 1800 < ended[0] + 150 then start + 1800 else ended[0] + 150
  }

  // Every round began in time, the rounds for the resume after the pause had ended.
  ghost predicate InTime(start: int, rounds: seq<Round>, ended: seq<int>) {
    forall k :: 0 <= k < |rounds| ==>
      && (rounds[k].step == 1 || rounds[k].step == 2) && rounds[k].at < start + 1800
      && (rounds[k].step == 2 ==> ended != [] && ended[0] <= rounds[k].at < ended[0] + 150)
  }

  // Pause and resume were carried out, the resume in the last round.
  ghost predicate InTwoSteps(rounds: seq<Round>, ended: seq<int>) {
    && |ended| == 2 && rounds != [] && rounds[|rounds| - 1].step == 2
    && ended[0] <= rounds[|rounds| - 1].at <= ended[1]
  }

  lemma RoundBegins(start: int, rounds: seq<Round>, ended: seq<int>, round: Round)
    requires InTime(start, rounds, ended) && round.at < Due(start, ended)
    requires round.step == 1 || (round.step == 2 && ended != [] && ended[0] <= round.at)
    ensures InTime(start, rounds + [round], ended)
  {
  }

  lemma TransitionEnds(start: int, rounds: seq<Round>, ended: seq<int>, at: int)
    requires InTime(start, rounds, ended)
    ensures InTime(start, rounds, ended + [at])
  {
  }

  // The engine, the clock and the probe. Before any call answers, outstanding commands
  // may have acted.
  class World {
    const strict: bool
    var engine: Engine
    var now: int
    ghost var answers: seq<Answer>

    // Nothing is outstanding unless some call failed.
    ghost predicate Valid()
      reads this
    {
      Consistent(engine) && (engine.flying != {} ==> Troubled(answers))
    }

    constructor (strict: bool, now: int)
      ensures Valid() && engine == RUNNING && this.strict == strict && this.now == now && answers == []
    {
      this.strict, engine, this.now, answers := strict, RUNNING, now, [];
    }

    method Drift()
      requires Consistent(engine)
      modifies this`engine
      ensures Drifts(old(engine), engine)
      ensures Consistent(engine)
      decreases |engine.flying|
    {
      if engine.flying != {} {
        if * {
          var c :| c in engine.flying;
          LandedIsConsistent(engine, c);
          engine := Landed(engine, c);
          Drift();
        }
      }
    }

    // Time passes, and with it outstanding commands may act.
    method Pass(least: nat)
      requires Valid()
      modifies this`engine, this`now
      ensures Valid() && now >= old(now) + least && Drifts(old(engine), engine)
    {
      var later :| later >= now + least;
      now := later;
      ghost var before := engine;
      Drift();
      DriftKeeps(before, engine);
    }

    method Perform(c: Command) returns (ok: bool, ghost met: Engine)
      requires Valid() && (c == Pause ==> NoPauseYet(engine))
      modifies this
      ensures Valid() && now >= old(now) && Drifts(old(engine), met) && Performs(strict, met, c, ok, engine)
      ensures answers == old(answers) + [Done(ok)] && (!ok ==> Troubled(answers))
    {
      ghost var before := engine;
      Pass(0);
      met := engine;
      DriftKeeps(before, met);
      if Applies(engine, c) {
        if * {
          engine := Acted(engine, c);
          ok := *;
        } else {
          ok := Fail(c);
        }
      } else if c == Unpause && !strict {
        ok := true;
      } else {
        ok := Fail(c);
      }
      PerformKeeps(strict, met, c, ok, engine);
      ghost var was := answers;
      answers := answers + [Done(ok)];
      TroubledStays(was, answers);
      if !ok {
        TroubledBy(was, Done(ok));
      }
    }

    // The command is lost, or it may still act.
    method Fail(c: Command) returns (ok: bool)
      modifies this`engine
      ensures !ok && (engine == old(engine) || engine == old(engine).(flying := old(engine).flying + {c}))
    {
      ok := false;
      if * {
        engine := engine.(flying := engine.flying + {c});
      }
    }

    // The application's pause state; None when the inspection or one of its checks fails.
    method Inspect() returns (r: Option<bool>)
      requires Valid()
      modifies this
      ensures Valid() && now >= old(now) && Drifts(old(engine), engine) && (r.Some? ==> r.value == engine.paused)
      ensures answers == old(answers) + [Seen(r)] && (r.None? ==> Troubled(answers))
    {
      Pass(0);
      r := None;
      if * {
        r := Some(engine.paused);
      }
      Note(Seen(r));
    }

    method ReadRequest(sequence: int, ghost known: Option<string>) returns (r: Reply)
      requires Valid()
      modifies this
      ensures Valid() && now >= old(now) && Drifts(old(engine), engine)
      ensures answers == old(answers) + [Read(sequence, known, r)]
      ensures Trouble(Read(sequence, known, r)) ==> Troubled(answers)
    {
      Pass(0);
      r := *;
      Note(Read(sequence, known, r));
    }

    ghost method Note(a: Answer)
      requires Valid()
      modifies this`answers
      ensures Valid() && answers == old(answers) + [a] && (Trouble(a) ==> Troubled(answers))
    {
      ghost var was := answers;
      answers := answers + [a];
      TroubledStays(was, answers);
      if Trouble(a) {
        TroubledBy(was, a);
      }
    }
  }

  class Owner {
    const world: World
    var pending: bool
    var nonce: Option<string>
    var observed: seq<string>

    // The rounds begun, and when each finished transition ended.
    ghost var rounds: seq<Round>
    ghost var ended: seq<int>

    constructor (world: World)
      requires world.Valid() && AtRest(world.engine)
      ensures this.world == world && Safe() && New()
    {
      this.world, pending, nonce, observed := world, false, None, [];
      rounds, ended := [], [];
    }

    ghost predicate New()
      reads this
    {
      !pending && nonce == None && observed == [] && rounds == [] && ended == []
    }

    // Unless the mark is set, the application runs and nothing outstanding can pause it.
    ghost predicate Safe()
      reads this, world
    {
      world.Valid() && (!pending ==> AtRest(world.engine))
    }

    // Probe and application are both inspected; the application's pause state is kept.
    method Verify() returns (r: Option<bool>)
      requires Safe()
      modifies world
      ensures Safe() && world.now >= old(world.now) && old(world.answers) <= world.answers
      ensures world.engine.flying <= old(world.engine).flying
        && (NoPauseYet(old(world.engine)) ==> NoPauseYet(world.engine))
      ensures old(world.engine).flying == {} ==> world.engine == old(world.engine)
      ensures if r.Some? then r.value == world.engine.paused else Troubled(world.answers)
      ensures r.Some?
        ==> exists probe :: world.answers == old(world.answers) + [Seen(probe)] + [Seen(r)] && probe.Some?
    {
      ghost var e := world.engine;
      r := world.Inspect();
      ghost var e' := world.engine;
      DriftKeeps(e, e');
      if r.None? {
        return;
      }
      r := world.Inspect();
      DriftKeeps(e', world.engine);
    }

    // None raises; Some(false) is no request yet.
    method ReadNext(sequence: int) returns (r: Option<bool>)
      requires Safe()
      modifies this`nonce, world
      ensures Safe() && world.now >= old(world.now) && old(world.answers) <= world.answers
      ensures world.engine.flying <= old(world.engine).flying
        && (NoPauseYet(old(world.engine)) ==> NoPauseYet(world.engine))
      ensures old(world.engine).flying == {} ==> world.engine == old(world.engine)
      ensures r.None? ==> Troubled(world.answers)
      ensures |world.answers| == |old(world.answers)| + 1 && world.answers[|old(world.answers)|].Read?
      ensures var reply := world.answers[|old(world.answers)|].reply;
              && (r == Some(true) <==> Asks(reply, sequence, old(nonce))) && (r == Some(false) <==> reply.NoRequest?)
              && (r == Some(true) ==> nonce == Some(reply.nonce))
      ensures r == Some(true) ==> nonce.Some? && IsNonce(nonce.value) && (old(nonce).Some? ==> nonce == old(nonce))
      ensures r == Some(false) ==> nonce == old(nonce)
    {
      var reply := world.ReadRequest(sequence, nonce);
      DriftKeeps(old(world.engine), world.engine);
      AcceptableMeans(sequence, nonce, reply);
      match reply {
        case Failed => r := None;
        case NoRequest => r := Some(false);
        case Request(schema, s, action, n) =>
          if schema != SCHEMA || s != sequence || action != ActionOf(sequence) || !IsNonce(n) {
            return None;
          }
          if nonce.Some? && nonce.value != n {
            return None;
          }
          nonce, r := Some(n), Some(true);
      }
    }

    // One pause or one resume. A pause is asked for at most once; from then on the mark is
    // set until the application is seen running again.
    method Transition(sequence: int) returns (ok: bool)
      requires Safe() && nonce.Some? && (sequence == 1 || sequence == 2)
      requires sequence == 1 ==> NoPauseYet(world.engine)
      modifies this, world
      ensures world.Valid() && world.now >= old(world.now) && nonce == old(nonce)
      ensures old(world.answers) <= world.answers
      ensures world.strict || old(world.engine).flying == {} ==> Safe()
      ensures ok ==> observed == old(observed) + [ActionOf(sequence)] && pending == (sequence == 1)
      ensures rounds == old(rounds) && ended == if ok then old(ended) + [world.now] else old(ended)
      ensures ok ==> exists probe: Option<bool>, app: Option<bool> ::
                probe.Some? && app.Some?
                && world.answers == old(world.answers) + [Seen(probe)] + [Seen(app)] + [Done(true)]
                                    + [Seen(Some(sequence == 1))] + [Done(true)]
      ensures sequence == 1 && old(world.engine).paused && old(world.engine).flying == {}
        ==> !ok && pending == old(pending) && world.engine == old(world.engine)
      ensures old(world.engine).flying == {} && old(world.engine).paused == (sequence == 2) ==>
                if ok then Advanced(old(world.engine), world.engine, sequence, nonce.value) else Troubled(world.answers)
    {
      var app := Verify();
      if app.None? {
        return false;
      }
      if sequence == 1 {
        if app.value {
          return false;
        }
        pending := true;
      }
      ghost var met;
      ghost var e := world.engine;
      ok, met := world.Perform(CommandOf(sequence));
      DriftKeeps(e, met);
      PerformKeeps(world.strict, met, CommandOf(sequence), ok, world.engine);
      if !ok {
        return;
      }
      ok := Confirm(sequence, e, met);
      if ok {
        ended := ended + [world.now];
      }
    }

    // Exactly the step's command and its acknowledgement have acted; nothing is outstanding.
    ghost predicate Advanced(e: Engine, e': Engine, sequence: int, nonce: string) {
      e' == Engine(sequence == 1, {}, e.log + [CommandOf(sequence)] + [Ack(sequence, nonce)])
    }

    // The second half of a transition: the command was answered; its effect must be seen.
    method Confirm(sequence: int, ghost e: Engine, ghost met: Engine) returns (ok: bool)
      requires world.Valid() && nonce.Some? && (sequence == 1 || sequence == 2)
      requires Consistent(met) && met.flying <= e.flying && (e.flying == {} ==> met == e)
      requires Performs(world.strict, met, CommandOf(sequence), true, world.engine)
      requires sequence == 1 ==> pending
      requires !pending ==> AtRest(world.engine)
      modifies this`pending, this`observed, world
      ensures world.Valid() && world.now >= old(world.now) && nonce == old(nonce)
      ensures old(world.answers) <= world.answers
      ensures world.strict || e.flying == {} ==> Safe()
      ensures ok ==> observed == old(observed) + [ActionOf(sequence)] && pending == (sequence == 1 && old(pending))
      ensures ok ==> world.answers == old(world.answers) + [Seen(Some(sequence == 1))] + [Done(true)]
      ensures e.flying == {} && e.paused == (sequence == 2) ==>
                if ok then Advanced(e, world.engine, sequence, nonce.value) else Troubled(world.answers)
    {
      if sequence == 2 {
        UnpauseSettles(world.strict, met, world.engine);
      }
      ghost var done := world.engine;
      var seen := world.Inspect();
      DriftKeeps(done, world.engine);
      if seen != Some(sequence == 1) {
        return false;
      }
      if sequence == 2 {
        pending := false;
      }
      observed := observed + [ActionOf(sequence)];
      ghost var settled, acked := world.engine, world.engine;
      ok, acked := world.Perform(Ack(sequence, nonce.value));
      DriftKeeps(settled, acked);
      PerformKeeps(world.strict, acked, Ack(sequence, nonce.value), ok, world.engine);
    }

    // The check at the head of a round.
    method Begin(sequence: int, deadline: int) returns (go: bool)
      modifies this`rounds
      ensures go <==> world.now < deadline
      ensures rounds == if go then old(rounds) + [Round(sequence, world.now)] else old(rounds)
    {
      go := world.now < deadline;
      if go {
        rounds := rounds + [Round(sequence, world.now)];
      }
    }

    // One round: None raises, Some(false) is no request yet.
    method Play(sequence: int) returns (r: Option<bool>)
      requires Safe() && (sequence == 1 || sequence == 2) && Progress(sequence)
      modifies this, world
      ensures Safe() && world.now >= old(world.now) && rounds == old(rounds)
      ensures r.None? ==> Troubled(world.answers) && ended == old(ended)
      ensures r == Some(true) ==> Progress(sequence + 1) && ended == old(ended) + [world.now]
      ensures r == Some(false) ==> Progress(sequence) && ended == old(ended) && world.now > old(world.now)
    {
      var app := Verify();
      if app.None? {
        return None;
      }
      var asked := ReadNext(sequence);
      if asked.None? {
        return None;
      }
      if asked.value {
        var ok := Transition(sequence);
        return if ok then Some(true) else None;
      }
      ghost var e := world.engine;
      world.Pass(1);
      DriftKeeps(e, world.engine);
      r := Some(false);
    }

    // The polling loop, up to the recovery block. It ends: every idle round moves the clock
    // towards a deadline that never moves away.
    method Serve() returns (r: Outcome)
      requires Safe() && New() && world.engine == RUNNING
      modifies this, world
      ensures Safe() && InTime(old(world.now), rounds, ended)
      ensures r.Returned? ==> !pending && nonce == Some(r.nonce) && IsNonce(r.nonce)
      ensures r.Returned? ==> r.observed == observed == ["pause", "resume"] && InTwoSteps(rounds, ended)
      ensures r.Returned? ==> world.engine == Engine(false, {}, [Pause, Ack(1, r.nonce), Unpause, Ack(2, r.nonce)])
      ensures r.Raised? ==> Troubled(world.answers) || world.now >= Due(old(world.now), ended)
    {
      var sequence, deadline := 1, world.now + PATIENCE;
      ghost var start := world.now;
      while sequence <= 2
        invariant Safe() && 1 <= sequence <= 3 && world.now >= start && Progress(sequence)
        invariant deadline == Due(start, ended) && InTime(start, rounds, ended) && |ended| == sequence - 1
        invariant if sequence == 2 then ended[0] <= world.now else sequence == 3 ==> InTwoSteps(rounds, ended)
        decreases 3 - sequence, deadline - world.now
      {
        if world.now < deadline {
          RoundBegins(start, rounds, ended, Round(sequence, world.now));
        }
        var go := Begin(sequence, deadline);
        if !go {
          return Raised;
        }
        ghost var before := ended;
        var done := Play(sequence);
        if done.None? {
          return Raised;
        }
        if done.value {
          TransitionEnds(start, rounds, before, world.now);
          sequence := sequence + 1;
          var next := world.now + STEP_PATIENCE;
          deadline := if deadline < next then deadline else next;
        }
      }
      r := Returned(nonce.value, observed);
    }

    // Where the loop stands before its n-th step.
    ghost predicate Progress(sequence: int)
      reads this, world
    {
      && pending == (sequence == 2)
      && (sequence == 1 ==> observed == [] && world.engine == RUNNING)
      && (sequence > 1 ==> nonce.Some? && IsNonce(nonce.value))
      && (sequence == 2 ==> observed == ["pause"] && world.engine == Engine(true, {}, [Pause, Ack(1, nonce.value)]))
      && (sequence == 3 ==>
            && observed == ["pause", "resume"]
            && world.engine == Engine(false, {}, [Pause, Ack(1, nonce.value), Unpause, Ack(2, nonce.value)]))
    }

    // The recovery block; it raises itself when it cannot see the application running.
    method Recover() returns (ok: bool)
      requires Safe()
      modifies this, world
      ensures world.Valid() && nonce == old(nonce) && observed == old(observed)
      ensures rounds == old(rounds) && ended == old(ended)
      ensures old(world.answers) <= world.answers && world.now >= old(world.now)
      ensures ok == !pending && (!ok ==> Troubled(world.answers))
      ensures world.strict || old(world.engine).flying == {} ==> Safe()
      ensures !old(pending) ==> ok && world.engine == old(world.engine)
      ensures ok && old(pending) ==> exists app: Option<bool> ::
                app.Some? && world.answers == old(world.answers) + [Seen(app)] + [Done(true)] + [Seen(Some(false))]
    {
      if !pending {
        return true;
      }
      ghost var e := world.engine;
      var app := world.Inspect();
      ghost var inspected := world.engine;
      DriftKeeps(e, inspected);
      if app.None? {
        return false;
      }
      ghost var met;
      ok, met := world.Perform(Unpause);
      DriftKeeps(inspected, met);
      if !ok {
        return;
      }
      UnpauseSettles(world.strict, met, world.engine);
      ghost var done := world.engine;
      app := world.Inspect();
      DriftKeeps(done, world.engine);
      if app != Some(false) {
        return false;
      }
      pending := false;
    }

    // From a running application and under any pattern of failures, the run of an owner on
    // a strict engine ends with the application running and nothing outstanding that could
    // pause it, or raises with `pending` still set. On any engine a normal return means
    // that exactly one pause and one resume were carried out and acknowledged, under one
    // nonce, and a run raises only after some call failed, a request was not acceptable or
    // time ran out. No round begins later than 1800 seconds after the start, nor one for the
    // resume later than 150 seconds after the pause.
    method Run() returns (r: Outcome)
      requires Safe() && New() && world.engine == RUNNING
      modifies this, world
      ensures world.strict ==> AtRest(world.engine) || (r == Raised && pending)
      ensures !Troubled(world.answers) ==> AtRest(world.engine) && !pending
      ensures r.Returned?
        ==> !pending && nonce == Some(r.nonce) && IsNonce(r.nonce) && r.observed == ["pause", "resume"]
      ensures r.Returned? ==> world.engine == Engine(false, {}, [Pause, Ack(1, r.nonce), Unpause, Ack(2, r.nonce)])
      ensures r.Raised? ==> Troubled(world.answers) || world.now >= Due(old(world.now), ended)
      ensures InTime(old(world.now), rounds, ended) && (r.Returned? ==> InTwoSteps(rounds, ended))
    {
      r := Serve();
      ghost var answers := world.answers;
      var recovered := Recover();
      TroubledStays(answers, world.answers);
      if !recovered {
        r := Raised;
      }
    }
  }
}
