// The independent auditor of the served event log, and what its clean report is worth.
module EventAudit {
  import opened Text
  import opened CanonicalJson
  import opened CanonicalJsonReader
  import opened EventMessages

  // How a party checks the log: a digest, signature verification under the directory's
  // key, and the text an event's signature covers.
  datatype Scheme = Scheme(hash: string -> string, verify: (string, string) -> bool, preimage: Event -> string)

  datatype Verdict = Unsigned | BrokenChain | BadSignature | Verified

  predicate HasSignature(e: Event) {
    e.sig.Some? && e.sig.value != ""
  }

  predicate VerifyEvent(s: Scheme, e: Event) {
    HasSignature(e) && s.verify(e.sig.value, s.hash(s.preimage(e)))
  }

  // The auditor's decision on one event, given the signature it holds as the predecessor's.
  function Judge(s: Scheme, previous: Option<string>, e: Event): Verdict {
    if !HasSignature(e) then Unsigned
    else if e.prevHash != Some(PrevHashFrom(s.hash, previous)) then BrokenChain
    else if !VerifyEvent(s, e) then BadSignature
    else Verified
  }

  // The signature held after judging `log` with verdicts `vs`: the last one's if it verified.
  ghost function Held(log: seq<Event>, vs: seq<Verdict>): Option<string>
    requires |log| == |vs|
  {
    if vs != [] && vs[|vs| - 1] == Verified then log[|log| - 1].sig else None
  }

  // The verdict on every event of a log, each depending on the one before.
  ghost function Verdicts(s: Scheme, log: seq<Event>): (vs: seq<Verdict>)
    ensures |vs| == |log|
  {
    if log == [] then []
    else
      var n := |log| - 1;
      var vs := Verdicts(s, log[..n]);
      vs + [Judge(s, Held(log[..n], vs), log[n])]
  }

  ghost function Count(vs: seq<Verdict>, v: Verdict): nat {
    multiset(vs)[v]
  }

  const ACTIVE_EVENTS: set<string> := {"REGISTER", "REACTIVATE"}
  const INACTIVE_EVENTS: set<string> := {"EVICT", "DEREGISTER"}

  // What the last verified lifecycle event of `node` says of it: active, inactive or nothing.
  ghost function LastLifecycle(log: seq<Event>, vs: seq<Verdict>, node: string): Option<bool>
    requires |log| == |vs|
  {
    if log == [] then None
    else
      var n := |log| - 1;
      if vs[n] == Verified && log[n].nodeId == node != "" && log[n].eventType in ACTIVE_EVENTS + INACTIVE_EVENTS
      then Some(log[n].eventType in ACTIVE_EVENTS)
      else LastLifecycle(log[..n], vs[..n], node)
  }

  // The sequence numbers of the verified events, in order.
  ghost function VerifiedSeqs(log: seq<Event>, vs: seq<Verdict>): seq<int>
    requires |log| == |vs|
  {
    if log == [] then []
    else
      var n := |log| - 1;
      VerifiedSeqs(log[..n], vs[..n]) + if vs[n] == Verified then [log[n].seqNo] else []
  }

  // The first non-zero number of `qs`, or its last zero when there is none.
  ghost function FirstNonZero(qs: seq<int>): Option<int> {
    if qs == [] then None else if qs[0] != 0 || |qs| == 1 then Some(qs[0]) else FirstNonZero(qs[1..])
  }

  lemma {:induction false} FirstNonZeroAppend(qs: seq<int>, q: int)
    ensures FirstNonZero(qs + [q]) == if FirstNonZero(qs) in {None, Some(0)} then Some(q) else FirstNonZero(qs)
  {
    if |qs| > 0 {
      assert (qs + [q])[1..] == qs[1..] + [q];
      FirstNonZeroAppend(qs[1..], q);
    }
  }

  ghost function EventTypes(log: seq<Event>): multiset<string> {
    if log == [] then multiset{} else EventTypes(log[..|log| - 1]) + multiset{log[|log| - 1].eventType}
  }

  datatype Report = Report(
    active: set<string>, lifecycle: set<string>, eventCount: nat, eventTypes: multiset<string>,
    unsigned: nat, verified: nat, invalid: nat, chainFailures: nat, firstSeq: Option<int>, lastSeq: Option<int>)

  lemma OneMoreLifecycle(log: seq<Event>, vs: seq<Verdict>, e: Event, v: Verdict)
    requires |log| == |vs|
    ensures forall node :: LastLifecycle(log + [e], vs + [v], node) ==
              if v == Verified && e.nodeId == node != "" && e.eventType in ACTIVE_EVENTS + INACTIVE_EVENTS
              then Some(e.eventType in ACTIVE_EVENTS) else LastLifecycle(log, vs, node)
  {
    assert (log + [e])[..|log|] == log && (vs + [v])[..|log|] == vs;
  }

  // What the report says of a judged log: each counter counts its verdict, and a node is
  // active exactly when its last verified lifecycle event says so.
  ghost predicate Tallies(r: Report, log: seq<Event>, vs: seq<Verdict>)
    requires |log| == |vs|
  {
    && r.eventCount == |log| && r.eventTypes == EventTypes(log)
    && r.unsigned == Count(vs, Unsigned) && r.chainFailures == Count(vs, BrokenChain)
    && r.invalid == Count(vs, BadSignature) && r.verified == Count(vs, Verified)
    && (forall node :: node in r.active <==> LastLifecycle(log, vs, node) == Some(true))
    && (forall node :: node in r.lifecycle <==> LastLifecycle(log, vs, node).Some?)
    && r.firstSeq == FirstNonZero(VerifiedSeqs(log, vs))
    && r.lastSeq == LastOf(VerifiedSeqs(log, vs))
  }

  ghost function LastOf(qs: seq<int>): Option<int> {
    if qs == [] then None else Some(qs[|qs| - 1])
  }

  predicate Lifecycle(e: Event, v: Verdict, node: string) {
    v == Verified && e.nodeId == node != "" && e.eventType in ACTIVE_EVENTS + INACTIVE_EVENTS
  }

  // How the report changes with one more event.
  ghost predicate Counted(r: Report, r': Report, e: Event, v: Verdict) {
    && r'.eventCount == r.eventCount + 1 && r'.eventTypes == r.eventTypes + multiset{e.eventType}
    && r'.unsigned == r.unsigned + (if v == Unsigned then 1 else 0)
    && r'.chainFailures == r.chainFailures + (if v == BrokenChain then 1 else 0)
    && r'.invalid == r.invalid + (if v == BadSignature then 1 else 0)
    && r'.verified == r.verified + (if v == Verified then 1 else 0)
    && (forall node ::
          node in r'.active <==> if Lifecycle(e, v, node) then e.eventType in ACTIVE_EVENTS else node in r.active)
    && (forall node :: node in r'.lifecycle <==> node in r.lifecycle || Lifecycle(e, v, node))
    && r'.firstSeq == (if v == Verified && r.firstSeq in {None, Some(0)} then Some(e.seqNo) else r.firstSeq)
    && r'.lastSeq == (if v == Verified then Some(e.seqNo) else r.lastSeq)
  }

  lemma TalliesGrow(r: Report, r': Report, log: seq<Event>, vs: seq<Verdict>, e: Event, v: Verdict)
    requires |log| == |vs| && Tallies(r, log, vs) && Counted(r, r', e, v)
    ensures Tallies(r', log + [e], vs + [v])
  {
    OneMoreLifecycle(log, vs, e, v);
    assert (log + [e])[..|log|] == log && (vs + [v])[..|log|] == vs;
    FirstNonZeroAppend(VerifiedSeqs(log, vs), e.seqNo);
    assert VerifiedSeqs(log, vs) + [] == VerifiedSeqs(log, vs);
  }

  // Counting one event; a verified event of a named node moves it in or out of the active set.
  function CountEvent(r: Report, e: Event, v: Verdict): (r': Report)
    ensures Counted(r, r', e, v)
  {
    var t := r.(eventCount := r.eventCount + 1, eventTypes := r.eventTypes + multiset{e.eventType});
    match v
    case Unsigned => t.(unsigned := r.unsigned + 1)
    case BrokenChain => t.(chainFailures := r.chainFailures + 1)
    case BadSignature => t.(invalid := r.invalid + 1)
    case Verified =>
      var first := if r.firstSeq.None? || r.firstSeq.value == 0 then Some(e.seqNo) else r.firstSeq;
      var u := t.(verified := r.verified + 1, firstSeq := first, lastSeq := Some(e.seqNo));
      if e.nodeId == "" then u
      else if e.eventType in ACTIVE_EVENTS
        then u.(active := r.active + {e.nodeId}, lifecycle := r.lifecycle + {e.nodeId})
      else if e.eventType in INACTIVE_EVENTS
        then u.(active := r.active - {e.nodeId}, lifecycle := r.lifecycle + {e.nodeId})
      else u
  }

  const NOTHING_SEEN := Report({}, {}, 0, multiset{}, 0, 0, 0, 0, None, None)

  ghost function ReportOf(log: seq<Event>, vs: seq<Verdict>): Report
    requires |log| == |vs|
  {
    if log == [] then NOTHING_SEEN
    else var n := |log| - 1; CountEvent(ReportOf(log[..n], vs[..n]), log[n], vs[n])
  }

  lemma {:induction false} ReportTallies(log: seq<Event>, vs: seq<Verdict>)
    requires |log| == |vs|
    ensures Tallies(ReportOf(log, vs), log, vs)
  {
    if log != [] {
      var n := |log| - 1;
      ReportTallies(log[..n], vs[..n]);
      TalliesGrow(ReportOf(log[..n], vs[..n]), ReportOf(log, vs), log[..n], vs[..n], log[n], vs[n]);
      assert log[..n] + [log[n]] == log && vs[..n] + [vs[n]] == vs;
    }
  }

  // ---- What the verdicts mean, position by position ----

  // The link due at a position: the digest of the signature before it if that event was
  // accepted, and the chain's root otherwise.
  ghost function LinkDue(s: Scheme, log: seq<Event>, i: nat): string
    requires i < |log|
    decreases i, 0
  {
    if i > 0 && Accepted(s, log, i - 1) then s.hash(log[i - 1].sig.value) else GENESIS_ROOT
  }

  // Signed, linked as due, and verified.
  ghost predicate Accepted(s: Scheme, log: seq<Event>, i: nat)
    requires i < |log|
    decreases i, 1
  {
    && log[i].sig.Some? && log[i].sig.value != ""
    && log[i].prevHash == Some(LinkDue(s, log, i))
    && s.verify(log[i].sig.value, s.hash(s.preimage(log[i])))
  }

  ghost predicate UnsignedAt(log: seq<Event>, i: nat) {
    i < |log| && (log[i].sig == None || log[i].sig == Some(""))
  }

  // Signed, but not linked as due.
  ghost predicate BrokenAt(s: Scheme, log: seq<Event>, i: nat) {
    i < |log| && !UnsignedAt(log, i) && log[i].prevHash != Some(LinkDue(s, log, i))
  }

  // Signed and linked as due, but the signature does not verify.
  ghost predicate ForgedAt(s: Scheme, log: seq<Event>, i: nat) {
    && i < |log| && !UnsignedAt(log, i) && log[i].prevHash == Some(LinkDue(s, log, i))
    && !s.verify(log[i].sig.value, s.hash(s.preimage(log[i])))
  }

  ghost predicate AcceptedAt(s: Scheme, log: seq<Event>, i: nat) {
    i < |log| && Accepted(s, log, i)
  }

  // What is due at a position depends on nothing behind it.
  lemma {:induction false} DueInPrefix(s: Scheme, log: seq<Event>, n: nat, i: nat)
    requires i < n <= |log|
    ensures LinkDue(s, log[..n], i) == LinkDue(s, log, i) && Accepted(s, log[..n], i) == Accepted(s, log, i)
  {
    if i > 0 {
      DueInPrefix(s, log, n, i - 1);
    }
  }

  // The verdict at a position, told from the events alone.
  lemma {:induction false} VerdictsMean(s: Scheme, log: seq<Event>, i: nat)
    requires i < |log|
    ensures Verdicts(s, log)[i] == Unsigned <==> UnsignedAt(log, i)
    ensures Verdicts(s, log)[i] == BrokenChain <==> BrokenAt(s, log, i)
    ensures Verdicts(s, log)[i] == BadSignature <==> ForgedAt(s, log, i)
    ensures Verdicts(s, log)[i] == Verified <==> AcceptedAt(s, log, i)
  {
    var n := |log| - 1;
    if i < n {
      VerdictsMean(s, log[..n], i);
      DueInPrefix(s, log, n, i);
    } else if n > 0 {
      VerdictsMean(s, log[..n], n - 1);
      DueInPrefix(s, log, n, n - 1);
    }
  }

  lemma {:induction false} CountIsPositions(vs: seq<Verdict>, v: Verdict, ps: set<nat>)
    requires forall i: nat :: i in ps <==> i < |vs| && vs[i] == v
    ensures Count(vs, v) == |ps|
  {
    if vs == [] {
      assert ps == {};
    } else {
      var n := |vs| - 1;
      assert vs == vs[..n] + [vs[n]];
      CountIsPositions(vs[..n], v, ps - {n});
    }
  }

  // Each counter is the number of positions where its defect, or none, is found.
  ghost predicate CountsPositions(r: Report, s: Scheme, log: seq<Event>) {
    && r.unsigned == |set i: nat | i < |log| && UnsignedAt(log, i)|
    && r.chainFailures == |set i: nat | i < |log| && BrokenAt(s, log, i)|
    && r.invalid == |set i: nat | i < |log| && ForgedAt(s, log, i)|
    && r.verified == |set i: nat | i < |log| && AcceptedAt(s, log, i)|
  }

  lemma CountersMean(s: Scheme, log: seq<Event>, r: Report)
    requires Tallies(r, log, Verdicts(s, log))
    ensures CountsPositions(r, s, log)
  {
    var vs := Verdicts(s, log);
    forall i: nat | i < |log| {
      VerdictsMean(s, log, i);
    }
    CountIsPositions(vs, Unsigned, set i: nat | i < |log| && UnsignedAt(log, i));
    CountIsPositions(vs, BrokenChain, set i: nat | i < |log| && BrokenAt(s, log, i));
    CountIsPositions(vs, BadSignature, set i: nat | i < |log| && ForgedAt(s, log, i));
    CountIsPositions(vs, Verified, set i: nat | i < |log| && AcceptedAt(s, log, i));
  }

  ghost predicate LifecycleAt(s: Scheme, log: seq<Event>, i: nat, node: string) {
    && AcceptedAt(s, log, i) && log[i].nodeId == node != ""
    && log[i].eventType in {"REGISTER", "REACTIVATE", "EVICT", "DEREGISTER"}
  }

  // The last accepted lifecycle event of the node opens it.
  ghost predicate LastOpens(s: Scheme, log: seq<Event>, node: string) {
    exists i: nat :: LifecycleAt(s, log, i, node) && log[i].eventType in {"REGISTER", "REACTIVATE"}
      && forall j: nat :: j > i ==> !LifecycleAt(s, log, j, node)
  }

  lemma {:induction false} LastLifecycleAt(log: seq<Event>, vs: seq<Verdict>, node: string) returns (i: nat)
    requires |log| == |vs| && LastLifecycle(log, vs, node).Some?
    ensures i < |log| && Lifecycle(log[i], vs[i], node)
    ensures LastLifecycle(log, vs, node) == Some(log[i].eventType in ACTIVE_EVENTS)
    ensures forall j :: i < j < |log| ==> !Lifecycle(log[j], vs[j], node)
  {
    var n := |log| - 1;
    i := n;
    if !Lifecycle(log[n], vs[n], node) {
      i := LastLifecycleAt(log[..n], vs[..n], node);
    }
  }

  lemma {:induction false} NoLifecycle(log: seq<Event>, vs: seq<Verdict>, node: string)
    requires |log| == |vs| && LastLifecycle(log, vs, node).None?
    ensures forall j :: 0 <= j < |log| ==> !Lifecycle(log[j], vs[j], node)
  {
    if log != [] {
      NoLifecycle(log[..|log| - 1], vs[..|log| - 1], node);
    }
  }

  lemma LifecycleMeans(s: Scheme, log: seq<Event>, node: string, i: nat)
    ensures i < |log| && Lifecycle(log[i], Verdicts(s, log)[i], node) <==> LifecycleAt(s, log, i, node)
  {
    if i < |log| {
      VerdictsMean(s, log, i);
    }
  }

  // The active nodes are those whose last accepted lifecycle event opens them.
  lemma ActiveMeans(s: Scheme, log: seq<Event>, node: string)
    ensures LastLifecycle(log, Verdicts(s, log), node) == Some(true) <==> LastOpens(s, log, node)
  {
    var vs := Verdicts(s, log);
    forall i: nat {
      LifecycleMeans(s, log, node, i);
    }
    if LastLifecycle(log, vs, node).Some? {
      var i := LastLifecycleAt(log, vs, node);
    } else {
      NoLifecycle(log, vs, node);
    }
  }

  // One pass over the served events.
  method AnalyzeEvents(s: Scheme, log: seq<Event>) returns (r: Report)
    ensures Tallies(r, log, Verdicts(s, log)) && CountsPositions(r, s, log)
    ensures forall node :: node in r.active <==> LastOpens(s, log, node)
  {
    r := NOTHING_SEEN;
    var previous: Option<string> := None;
    ghost var vs: seq<Verdict> := [];
    assert log[..0] == [];
    for i := 0 to |log|
      invariant vs == Verdicts(s, log[..i]) && previous == Held(log[..i], vs)
      invariant r == ReportOf(log[..i], vs)
    {
      var v := Judge(s, previous, log[i]);
      assert log[..i + 1][..i] == log[..i] && (vs + [v])[..i] == vs;
      r, previous, vs := CountEvent(r, log[i], v), if v == Verified then log[i].sig else None, vs + [v];
    }
    assert log[..|log|] == log;
    ReportTallies(log, vs);
    CountersMean(s, log, r);
    forall node {
      ActiveMeans(s, log, node);
    }
  }

  // Every event signed and verified, and linked to the signature before it.
  ghost predicate Chained(s: Scheme, log: seq<Event>) {
    forall i :: 0 <= i < |log| ==> ChainedAt(s, log, i)
  }

  ghost predicate ChainedAt(s: Scheme, log: seq<Event>, i: nat)
    requires i < |log|
  {
    && log[i].prevHash == Some(PrevHashFrom(s.hash, if i == 0 then None else log[i - 1].sig))
    && VerifyEvent(s, log[i])
  }

  lemma {:induction false} VerdictsWhenChained(s: Scheme, log: seq<Event>)
    requires Chained(s, log)
    ensures forall i :: 0 <= i < |log| ==> Verdicts(s, log)[i] == Verified
  {
    if log != [] {
      var n := |log| - 1;
      forall i | 0 <= i < n
        ensures ChainedAt(s, log[..n], i)
      {
        assert ChainedAt(s, log, i);
      }
      VerdictsWhenChained(s, log[..n]);
      assert ChainedAt(s, log, n);
    }
  }

  lemma {:induction false} ChainedWhenVerified(s: Scheme, log: seq<Event>)
    requires forall i :: 0 <= i < |log| ==> Verdicts(s, log)[i] == Verified
    ensures Chained(s, log)
  {
    if log != [] {
      var n := |log| - 1;
      var vs := Verdicts(s, log[..n]);
      assert Verdicts(s, log)[..n] == vs;
      assert forall i :: 0 <= i < n ==> vs[i] == Verdicts(s, log)[i];
      ChainedWhenVerified(s, log[..n]);
      assert Verdicts(s, log)[n] == Judge(s, Held(log[..n], vs), log[n]);
      forall i | 0 <= i < |log|
        ensures ChainedAt(s, log, i)
      {
        if i < n {
          assert ChainedAt(s, log[..n], i);
        }
      }
    }
  }

  lemma {:induction false} CountAll(vs: seq<Verdict>, v: Verdict)
    ensures Count(vs, v) <= |vs|
    ensures Count(vs, v) == |vs| <==> forall i :: 0 <= i < |vs| ==> vs[i] == v
  {
    if vs != [] {
      var n := |vs| - 1;
      assert vs == vs[..n] + [vs[n]];
      CountAll(vs[..n], v);
    }
  }

  // The auditor counts every event as verified exactly on the chained logs.
  lemma CleanIffChained(s: Scheme, log: seq<Event>)
    ensures Count(Verdicts(s, log), Verified) == |log| <==> Chained(s, log)
  {
    var vs := Verdicts(s, log);
    CountAll(vs, Verified);
    if Chained(s, log) {
      VerdictsWhenChained(s, log);
    }
    if forall i :: 0 <= i < |log| ==> vs[i] == Verified {
      ChainedWhenVerified(s, log);
    }
  }

  // ---- Tamper evidence ----

  // No two different texts among these share a digest.
  ghost predicate CollisionFree(hash: string -> string, texts: set<string>) {
    forall x, y :: x in texts && y in texts && hash(x) == hash(y) ==> x == y
  }

  // None of these digests to the chain's root constant.
  ghost predicate AvoidsGenesis(hash: string -> string, texts: set<string>) {
    forall x :: x in texts ==> hash(x) != GENESIS_ROOT
  }

  // The ideal properties of a digest on the texts at hand, and of a signature scheme.
  ghost predicate Ideal(s: Scheme, texts: set<string>) {
    CollisionFree(s.hash, texts) && AvoidsGenesis(s.hash, texts) && SignatureFixesMessage(s.verify)
  }

  ghost predicate SignatureFixesMessage(verify: (string, string) -> bool) {
    forall sig, m, m' :: verify(sig, m) && verify(sig, m') ==> m == m'
  }

  // Everything hashed for the events of a log is among `texts`.
  ghost predicate HashedWithin(s: Scheme, log: seq<Event>, texts: set<string>) {
    forall i :: 0 <= i < |log| ==> s.preimage(log[i]) in texts && log[i].sig.Some? && log[i].sig.value in texts
  }

  // The covered text of an event fixes the link it carries.
  ghost predicate CoversLink(s: Scheme, a: seq<Event>, b: seq<Event>) {
    forall i, j :: 0 <= i < |a| && 0 <= j < |b| && s.preimage(a[i]) == s.preimage(b[j])
      ==> a[i].prevHash == b[j].prevHash
  }

  ghost predicate Fits(s: Scheme, a: seq<Event>, b: seq<Event>, texts: set<string>) {
    HashedWithin(s, a, texts) && HashedWithin(s, b, texts) && CoversLink(s, a, b)
  }

  lemma SameStepBack(s: Scheme, a: seq<Event>, b: seq<Event>, texts: set<string>, i: nat, j: nat)
    requires Ideal(s, texts) && Chained(s, a) && Chained(s, b) && Fits(s, a, b, texts)
    requires i < |a| && j < |b| && a[i].sig == b[j].sig
    ensures s.preimage(a[i]) == s.preimage(b[j])
    ensures i == 0 <==> j == 0
    ensures i > 0 && j > 0 ==> a[i - 1].sig == b[j - 1].sig
  {
    assert ChainedAt(s, a, i) && ChainedAt(s, b, j);
    assert a[i].prevHash == b[j].prevHash;
    assert i > 0 ==> ChainedAt(s, a, i - 1) && a[i - 1].sig.value in texts;
    assert j > 0 ==> ChainedAt(s, b, j - 1) && b[j - 1].sig.value in texts;
  }

  // From one signature found in both chains, everything before it agrees.
  lemma {:induction false} SameHistory(s: Scheme, a: seq<Event>, b: seq<Event>, texts: set<string>, i: nat, j: nat)
    requires Ideal(s, texts) && Chained(s, a) && Chained(s, b) && Fits(s, a, b, texts)
    requires i < |a| && j < |b| && a[i].sig == b[j].sig
    ensures i == j && forall k :: 0 <= k <= i ==> s.preimage(a[k]) == s.preimage(b[k]) && a[k].sig == b[k].sig
  {
    SameStepBack(s, a, b, texts, i, j);
    if i > 0 && j > 0 {
      SameHistory(s, a, b, texts, i - 1, j - 1);
    }
  }

  lemma SameEndSameTexts(s: Scheme, a: seq<Event>, b: seq<Event>, texts: set<string>)
    requires Ideal(s, texts) && Chained(s, a) && Chained(s, b) && Fits(s, a, b, texts)
    requires a != [] && b != [] && a[|a| - 1].sig == b[|b| - 1].sig
    ensures |a| == |b|
    ensures forall k :: 0 <= k < |a| ==> s.preimage(a[k]) == s.preimage(b[k]) && a[k].sig == b[k].sig
  {
    SameHistory(s, a, b, texts, |a| - 1, |b| - 1);
  }
}

// The scheme the directory and its auditor use, and tamper evidence for it.
module TamperEvidence {
  import opened Text
  import opened CanonicalJson
  import opened CanonicalJsonReader
  import opened EventMessages
  import opened EventAudit

  function AuditScheme(c: Crypto): Scheme {
    Scheme(c.hash, c.verify, e => SigningPreimage(c, e))
  }

  ghost predicate HexDigests(c: Crypto) {
    forall s :: |c.hash(s)| == 64 && ColonFree(c.hash(s))
  }

  // What the directory writes into an event: an id and a type without colons, 64-bit
  // numbers, a JSON payload, and a service id only if it is a valid one.
  ghost predicate PlainFields(e: Event) {
    && ColonFree(e.eventId) && ColonFree(e.eventType) && InI64(e.seqNo) && WellFormed(e.payload)
    && (e.serviceId.Some? ==> ValidServiceId(e.serviceId.value))
  }

  ghost predicate AllPlain(log: seq<Event>) {
    forall i :: 0 <= i < |log| ==> PlainFields(log[i])
  }

  ghost function PayloadText(e: Event): string {
    Canonical(e.payload)
  }

  // The texts hashed while verifying a log: payloads, covered texts and signatures.
  ghost function Hashed(c: Crypto, log: seq<Event>): set<string> {
    (set e | e in log :: PayloadText(e))
    + (set e | e in log :: SigningPreimage(c, e))
    + (set e | e in log && e.sig.Some? :: e.sig.value)
  }

  // Equal in every signed field; the node id is not signed.
  ghost predicate SameSignedFields(e: Event, f: Event) {
    && e.eventId == f.eventId && e.eventType == f.eventType && e.seqNo == f.seqNo && e.tsMs == f.tsMs
    && Same(e.payload, f.payload) && e.prevHash == f.prevHash && e.sig == f.sig && e.serviceId == f.serviceId
  }

  ghost predicate SameHeader(c: Crypto, e: Event, f: Event) {
    && e.eventId == f.eventId && e.eventType == f.eventType && e.seqNo == f.seqNo && e.tsMs == f.tsMs
    && c.hash(PayloadText(e)) == c.hash(PayloadText(f))
    && e.prevHash == f.prevHash && e.serviceId == f.serviceId
  }

  // A covered text determines every field it mentions, whichever version it is.
  lemma PreimageDetermines(c: Crypto, e: Event, f: Event)
    requires HexDigests(c) && PlainFields(e) && PlainFields(f)
    requires e.prevHash.Some? && f.prevHash.Some? && e.prevHash.value != "" && f.prevHash.value != ""
    requires SigningPreimage(c, e) == SigningPreimage(c, f)
    ensures SameHeader(c, e, f)
  {
    var ph, ph' := c.hash(Canonical(e.payload)), c.hash(Canonical(f.payload));
    var p, p' := e.prevHash.value, f.prevHash.value;
    match (e.serviceId, f.serviceId)
    case (None, None) =>
      V1Determines(e.eventId, e.eventType, e.seqNo, e.tsMs, ph, p, f.eventId, f.eventType, f.seqNo, f.tsMs, ph', p');
    case (Some(s), Some(s')) =>
      V2Determines(s, e.eventId, e.eventType, e.seqNo, e.tsMs, ph, p,
                   s', f.eventId, f.eventType, f.seqNo, f.tsMs, ph', p');
    case (None, Some(s')) =>
      V1IsNotV2(e.eventId, e.eventType, e.seqNo, e.tsMs, ph, p, s', f.eventId, f.eventType, f.seqNo, f.tsMs, ph', p');
    case (Some(s), None) =>
      V1IsNotV2(f.eventId, f.eventType, f.seqNo, f.tsMs, ph', p', s, e.eventId, e.eventType, e.seqNo, e.tsMs, ph, p);
  }

  // A chained event carries a digest or the root constant: never an empty link.
  lemma LinkPresent(c: Crypto, log: seq<Event>, i: nat)
    requires HexDigests(c) && Chained(AuditScheme(c), log) && i < |log|
    ensures log[i].prevHash.Some? && log[i].prevHash.value != ""
  {
    assert ChainedAt(AuditScheme(c), log, i);
    assert |PrevHashFrom(c.hash, if i == 0 then None else log[i - 1].sig)| == 64;
  }

  lemma SchemeCoversLink(c: Crypto, a: seq<Event>, b: seq<Event>)
    requires HexDigests(c) && AllPlain(a) && AllPlain(b)
    requires Chained(AuditScheme(c), a) && Chained(AuditScheme(c), b)
    ensures CoversLink(AuditScheme(c), a, b)
  {
    forall i, j | 0 <= i < |a| && 0 <= j < |b| && AuditScheme(c).preimage(a[i]) == AuditScheme(c).preimage(b[j])
      ensures a[i].prevHash == b[j].prevHash
    {
      LinkPresent(c, a, i);
      LinkPresent(c, b, j);
      PreimageDetermines(c, a[i], b[j]);
    }
  }

  lemma SchemeHashes(c: Crypto, log: seq<Event>, texts: set<string>)
    requires Chained(AuditScheme(c), log) && Hashed(c, log) <= texts
    ensures HashedWithin(AuditScheme(c), log, texts)
  {
    forall i | 0 <= i < |log|
      ensures AuditScheme(c).preimage(log[i]) in texts && log[i].sig.Some? && log[i].sig.value in texts
    {
      assert ChainedAt(AuditScheme(c), log, i);
      assert log[i] in log;
      assert SigningPreimage(c, log[i]) in Hashed(c, log);
      assert log[i].sig.value in Hashed(c, log);
    }
  }

  lemma SamePayload(c: Crypto, e: Event, f: Event, texts: set<string>)
    requires WellFormed(e.payload) && WellFormed(f.payload) && CollisionFree(c.hash, texts)
    requires PayloadText(e) in texts && PayloadText(f) in texts && c.hash(PayloadText(e)) == c.hash(PayloadText(f))
    ensures Same(e.payload, f.payload)
  {
    CanonicalIdentifiesValue(e.payload, f.payload);
  }

  lemma SameFieldsAt(c: Crypto, a: seq<Event>, b: seq<Event>, k: nat, texts: set<string>)
    requires HexDigests(c) && CollisionFree(c.hash, texts) && Hashed(c, a) <= texts && Hashed(c, b) <= texts
    requires AllPlain(a) && AllPlain(b) && Chained(AuditScheme(c), a) && Chained(AuditScheme(c), b)
    requires k < |a| && k < |b| && a[k].sig == b[k].sig
    requires AuditScheme(c).preimage(a[k]) == AuditScheme(c).preimage(b[k])
    ensures SameSignedFields(a[k], b[k])
  {
    LinkPresent(c, a, k);
    LinkPresent(c, b, k);
    PreimageDetermines(c, a[k], b[k]);
    assert a[k] in a && b[k] in b;
    assert PayloadText(a[k]) in Hashed(c, a) && PayloadText(b[k]) in Hashed(c, b);
    SamePayload(c, a[k], b[k], texts);
  }

  lemma SchemeFits(c: Crypto, a: seq<Event>, b: seq<Event>, texts: set<string>)
    requires HexDigests(c) && Hashed(c, a) <= texts && Hashed(c, b) <= texts
    requires AllPlain(a) && AllPlain(b) && Chained(AuditScheme(c), a) && Chained(AuditScheme(c), b)
    ensures Fits(AuditScheme(c), a, b, texts)
  {
    SchemeHashes(c, a, texts);
    SchemeHashes(c, b, texts);
    SchemeCoversLink(c, a, b);
  }

  lemma SameTextsSameFields(c: Crypto, s: Scheme, a: seq<Event>, b: seq<Event>, texts: set<string>)
    requires s == AuditScheme(c) && HexDigests(c) && Hashed(c, a) <= texts && Hashed(c, b) <= texts
    requires CollisionFree(s.hash, texts)
    requires AllPlain(a) && AllPlain(b) && Chained(s, a) && Chained(s, b) && |a| == |b|
    requires forall k :: 0 <= k < |a| ==> s.preimage(a[k]) == s.preimage(b[k]) && a[k].sig == b[k].sig
    ensures forall k :: 0 <= k < |a| ==> SameSignedFields(a[k], b[k])
  {
    forall k | 0 <= k < |a|
      ensures SameSignedFields(a[k], b[k])
    {
      SameFieldsAt(c, a, b, k, texts);
    }
  }

  // Two chained logs that end in the same signature are the same log, in every signed field.
  lemma SameEndSameLog(c: Crypto, a: seq<Event>, b: seq<Event>)
    requires HexDigests(c) && Ideal(AuditScheme(c), Hashed(c, a) + Hashed(c, b))
    requires AllPlain(a) && AllPlain(b) && Chained(AuditScheme(c), a) && Chained(AuditScheme(c), b)
    requires a != [] && b != [] && a[|a| - 1].sig == b[|b| - 1].sig
    ensures |a| == |b|
    ensures forall k :: 0 <= k < |a| ==> SameSignedFields(a[k], b[k])
  {
    var texts := Hashed(c, a) + Hashed(c, b);
    SchemeFits(c, a, b, texts);
    SameEndSameTexts(AuditScheme(c), a, b, texts);
    SameTextsSameFields(c, AuditScheme(c), a, b, texts);
  }

  // ---- The assumptions can be met ----

  function Line(ch: char): string {
    seq(64, _ => ch)
  }

  // A digest that tells texts apart by their length, and signatures that spell the message.
  function ToyCrypto(): Crypto {
    Crypto(x => Line(if |x| == 65 then 'a' else if |x| == 4 then 'b' else 'e'),
           (key, m) => Some("s" + m), (sig, m) => sig == "s" + m)
  }

  function ToyEvent(): Event {
    Event("e", "t", 1, 0, "n", Null, Some(GENESIS_ROOT), Some("s" + Line('e')), None)
  }

  lemma ToyPreimage()
    ensures |SigningPreimage(ToyCrypto(), ToyEvent())| == 137
  {
    assert Decimal(1) == "1" && Decimal(0) == "0";
    assert |ToyCrypto().hash(Canonical(Null))| == 64;
  }

  lemma ToyDigests(x: string)
    ensures |ToyCrypto().hash(x)| == 64 && ColonFree(ToyCrypto().hash(x)) && ToyCrypto().hash(x) != GENESIS_ROOT
    ensures ToyCrypto().hash(x)[63] == if |x| == 65 then 'a' else if |x| == 4 then 'b' else 'e'
  {
    assert GENESIS_ROOT[63] == 'd';
  }

  lemma HashedOfOne(c: Crypto, e: Event, x: string)
    requires e.sig.Some? && x in Hashed(c, [e])
    ensures x == PayloadText(e) || x == SigningPreimage(c, e) || x == e.sig.value
  {
  }

  lemma ToyApart(x: string, y: string, covered: string)
    requires |covered| == 137 && (x == "null" || x == covered || x == "s" + Line('e'))
    requires y == "null" || y == covered || y == "s" + Line('e')
    requires ToyCrypto().hash(x) == ToyCrypto().hash(y)
    ensures x == y
  {
    ToyDigests(x);
    ToyDigests(y);
  }

  lemma ToySignatures()
    ensures SignatureFixesMessage(ToyCrypto().verify)
  {
    forall sig, m, m' | ToyCrypto().verify(sig, m) && ToyCrypto().verify(sig, m')
      ensures m == m'
    {
      assert sig[1..] == m && sig[1..] == m';
    }
  }

  lemma ToyIdeal()
    ensures HexDigests(ToyCrypto()) && Ideal(AuditScheme(ToyCrypto()), Hashed(ToyCrypto(), [ToyEvent()]))
  {
    var c := ToyCrypto();
    var texts := Hashed(c, [ToyEvent()]);
    ToyPreimage();
    assert PayloadText(ToyEvent()) == "null";
    forall x, y | x in texts && y in texts && c.hash(x) == c.hash(y)
      ensures x == y
    {
      HashedOfOne(c, ToyEvent(), x);
      HashedOfOne(c, ToyEvent(), y);
      ToyApart(x, y, SigningPreimage(c, ToyEvent()));
    }
    forall x
      ensures |c.hash(x)| == 64 && ColonFree(c.hash(x)) && c.hash(x) != GENESIS_ROOT
    {
      ToyDigests(x);
    }
    ToySignatures();
  }

  lemma ToyChained()
    ensures ChainedAt(AuditScheme(ToyCrypto()), [ToyEvent()], 0)
  {
    ToyPreimage();
  }

  lemma ToyPlain()
    ensures AllPlain([ToyEvent()])
  {
  }

  // The premises of `SameEndSameLog` hold together of some digest, scheme and log.
  lemma AssumptionsCanBeMet() returns (c: Crypto, log: seq<Event>)
    ensures |log| == 1 && HexDigests(c) && AllPlain(log)
    ensures ChainedAt(AuditScheme(c), log, 0) && Ideal(AuditScheme(c), Hashed(c, log))
  {
    c, log := ToyCrypto(), [ToyEvent()];
    ToyIdeal();
    ToyChained();
    ToyPlain();
  }
}
