// The whole path: the directory's transactions write the log, the endpoint serves it in
// pages, the auditor drains and judges it.
module SeedAssessment {
  import opened Text
  import opened CanonicalJson
  import opened EventMessages
  import opened EventAudit
  import opened EventPaging
  import opened TamperEvidence
  import opened DirectoryLog
  import opened DirectoryRuns

  // The directory signs the V1 message over the link it drafted.
  function SignEvent(c: Crypto, key: string, draft: Event): Option<string> {
    c.sign(key, EventMessage(c, draft, if draft.prevHash.Some? then draft.prevHash.value else ""))
  }

  function DirectoryEnv(c: Crypto, signingKey: Option<string>): Env {
    Env(c.hash, (key, draft) => SignEvent(c, key, draft), signingKey)
  }

  // The public key the auditor holds is the one of the directory's own key: what that key
  // signs verifies. Nothing is asked of other keys.
  ghost predicate KeyPair(c: Crypto, signingKey: Option<string>) {
    signingKey.Some? ==>
      forall m :: c.sign(signingKey.value, m).Some? ==> c.verify(c.sign(signingKey.value, m).value, m)
  }

  // A signature is never the empty text.
  ghost predicate NonEmptySignatures(c: Crypto, signingKey: Option<string>) {
    signingKey.Some? ==> forall m :: c.sign(signingKey.value, m) != Some("")
  }

  // What the directory signs is what the auditor verifies.
  lemma SignerFitsAuditor(c: Crypto, signingKey: Option<string>)
    requires KeyPair(c, signingKey) && NonEmptySignatures(c, signingKey)
    ensures SignerMatches(DirectoryEnv(c, signingKey), AuditScheme(c))
  {
    if signingKey.Some? {
      var env, sch, key := DirectoryEnv(c, signingKey), AuditScheme(c), signingKey.value;
      forall draft: Event | Draftable(draft) && env.sign(key, draft).Some?
        ensures VerifyEvent(sch, draft.(sig := env.sign(key, draft)))
      {
        SignedIsVerified(c, key, draft);
      }
    }
  }

  lemma SignedIsVerified(c: Crypto, key: string, draft: Event)
    requires KeyPair(c, Some(key)) && NonEmptySignatures(c, Some(key))
    requires Draftable(draft) && SignEvent(c, key, draft).Some?
    ensures VerifyEvent(AuditScheme(c), draft.(sig := SignEvent(c, key, draft)))
  {
    var e := draft.(sig := SignEvent(c, key, draft));
    assert c.hash(SigningPreimage(c, e)) == EventMessage(c, draft, draft.prevHash.value);
  }

  // The log of any run, whoever signs, is served whole from cursor 0.
  lemma RunIsServedWhole(env: Env, s: State, steps: seq<Step>)
    requires EmptyLog(s)
    ensures var log := Run(env, s, steps).events; Ascending(log) && RowsAfter(log, 0) == log
  {
    RunKeepsChain(env, s, steps);
    var log := Run(env, s, steps).events;
    forall i | 0 <= i < |log|
      ensures log[i].seqNo == i + 1
    {
      assert RowOk(env.hash, log, i);
    }
    PositiveLogIsDrainedWhole(log);
  }

  // Assessing the log of any run from an empty directory, at any page size: all of it is
  // seen, and the assessment is clean exactly when every signature in it verifies; so it is
  // when the directory signed with its own key, or its key was malformed.
  method AssessSeed(
      c: Crypto, signingKey: Option<string>, log: seq<Event>, pageLimit: nat,
      ghost s: State, ghost steps: seq<Step>)
    returns (r: Report, complete: bool)
    requires EmptyLog(s) && log == Run(DirectoryEnv(c, signingKey), s, steps).events
    ensures r.eventCount == |log| && Tallies(r, log, Verdicts(AuditScheme(c), log))
    ensures CountsPositions(r, AuditScheme(c), log)
    ensures complete <==> r.chainFailures == 0 && r.invalid == 0
    ensures complete <==> SignaturesOk(AuditScheme(c), log)
    ensures complete ==> r.verified == SignedCount(log) && r.unsigned == |log| - SignedCount(log)
    ensures OwnSignatures(c, signingKey, steps) ==> complete
  {
    RunIsServedWhole(DirectoryEnv(c, signingKey), s, steps);
    var events, requests := CollectEvents(log, pageLimit);
    r := AnalyzeEvents(AuditScheme(c), events.value);
    complete := r.invalid == 0 && r.chainFailures == 0;
    RunAudit(c, signingKey, s, steps, r);
  }

  // The directory's key pair is the auditor's, and the run's appends use it or a key that
  // does not sign.
  ghost predicate OwnSignatures(c: Crypto, signingKey: Option<string>, steps: seq<Step>) {
    && HexDigests(c) && KeyPair(c, signingKey) && NonEmptySignatures(c, signingKey)
    && OwnKeys(DirectoryEnv(c, signingKey), steps)
  }

  lemma RunAudit(c: Crypto, signingKey: Option<string>, s: State, steps: seq<Step>, r: Report)
    requires EmptyLog(s)
    requires var log := Run(DirectoryEnv(c, signingKey), s, steps).events;
             Tallies(r, log, Verdicts(AuditScheme(c), log))
    ensures var log := Run(DirectoryEnv(c, signingKey), s, steps).events;
            && (r.chainFailures == 0 && r.invalid == 0 <==> SignaturesOk(AuditScheme(c), log))
            && (SignaturesOk(AuditScheme(c), log)
              ==> r.verified == SignedCount(log) && r.unsigned == |log| - SignedCount(log))
            && (OwnSignatures(c, signingKey, steps) ==> SignaturesOk(AuditScheme(c), log))
  {
    var env := DirectoryEnv(c, signingKey);
    RunKeepsChain(env, s, steps);
    CleanIffSignaturesOk(AuditScheme(c), Run(env, s, steps).events, r);
    if OwnSignatures(c, signingKey, steps) {
      SignerFitsAuditor(c, signingKey);
      RunKeepsGood(env, AuditScheme(c), s, steps);
    }
  }
}
