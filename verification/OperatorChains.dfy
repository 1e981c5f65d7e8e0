// What rotations, revocations and bindings keep over every run.
module OperatorChains {
  import opened Text
  import opened Operators

  // `next` is the registered successor that `key`'s identity names.
  ghost predicate Link(keys: Keys, ops: map<string, Identity>, key: string, next: string) {
    && key in ops && next in ops && ops[key].status == Rotated
    && ops[key].successor.Some? && Fingerprint(keys, next) == ops[key].successor
  }

  predicate Terminal(ops: map<string, Identity>, key: string) {
    key in ops ==> ops[key].status != Rotated
  }

  // From a key along successor links to one that was not rotated.
  ghost predicate Path(keys: Keys, ops: map<string, Identity>, p: seq<string>) {
    && p != [] && Terminal(ops, p[|p| - 1])
    && forall i :: 0 <= i < |p| - 1 ==> Link(keys, ops, p[i], p[i + 1])
  }

  ghost predicate Leads(keys: Keys, ops: map<string, Identity>, p: seq<string>, from: string, to: string) {
    Path(keys, ops, p) && p[0] == from && p[|p| - 1] == to
  }

  ghost predicate Reaches(keys: Keys, ops: map<string, Identity>, from: string, to: string) {
    exists p :: Leads(keys, ops, p, from, to)
  }

  ghost predicate Ends(keys: Keys, ops: map<string, Identity>, key: string) {
    exists to :: Reaches(keys, ops, key, to)
  }

  ghost predicate ChainsEnd(keys: Keys, ops: map<string, Identity>) {
    forall k :: k in ops ==> Ends(keys, ops, k)
  }

  // A node written under an unrotated key is where that key's chain ends; one written too
  // late, under a rotated key, is stuck there.
  ghost predicate NodeOk(keys: Keys, ops: map<string, Identity>, b: Binding, key: string) {
    if b.Live() then Reaches(keys, ops, b.key, key) else key == b.key && IsRotated(ops, key)
  }

  ghost predicate NodesOk(keys: Keys, st: State) {
    forall n :: n in st.nodes && st.nodes[n].operator.Some? ==>
      n in st.written && NodeOk(keys, st.operators, st.written[n], st.nodes[n].operator.value)
  }

  // ---- Paths under each kind of step ----

  // Nothing that a path looks at has changed.
  ghost predicate SameLinks(ops: map<string, Identity>, ops': map<string, Identity>) {
    && (forall k :: k in ops ==> k in ops')
    && (forall k :: k in ops && ops[k].status == Rotated ==>
          ops'[k].status == Rotated && ops'[k].successor == ops[k].successor)
  }

  ghost predicate NewlyRotated(ops: map<string, Identity>, ops': map<string, Identity>, key: string) {
    forall k :: k in ops' && ops'[k].status == Rotated ==> k == key || (k in ops && ops[k].status == Rotated)
  }

  // No rotation, no rebinding, and no origin changes.
  ghost predicate Quiet(ops: map<string, Identity>, ops': map<string, Identity>) {
    && SameLinks(ops, ops')
    && (forall k :: k in ops' && ops'[k].status == Rotated ==> k in ops && ops[k].status == Rotated)
    && (forall k :: k in ops ==> ops'[k].profile.origin == ops[k].profile.origin)
  }

  ghost predicate SameBindings(st: State, st': State) {
    && st'.written == st.written
    && forall n :: n in st'.nodes ==> n in st.nodes && st'.nodes[n].operator == st.nodes[n].operator
  }

  lemma UpdateIsQuiet(ops: map<string, Identity>, key: string, id: Identity)
    requires id.status != Rotated || (key in ops && ops[key].status == Rotated && id.successor == ops[key].successor)
    requires key in ops
      ==> id.profile.origin == ops[key].profile.origin && (ops[key].status == Rotated ==> id.status == Rotated)
    ensures Quiet(ops, ops[key := id])
  {
  }

  lemma RegisterIsQuiet(st: State, key: string, profile: Profile)
    ensures var st' := RegisterStep(st, key, profile); Quiet(st.operators, st'.operators) && SameBindings(st, st')
  {
    var known := key in st.operators;
    UpdateIsQuiet(st.operators, key,
                  if known then Renamed(st.operators[key], profile.displayName) else NewIdentity(profile));
  }

  lemma RevokeIsQuiet(keys: Keys, st: State, key: string, reason: string)
    ensures var st' := RevokeStep(keys, st, key, reason); Quiet(st.operators, st'.operators) && SameBindings(st, st')
  {
  }

  // A path that does not end at the key being rotated stays; one that does is extended.
  lemma PathGoesOn(
      keys: Keys, ops: map<string, Identity>, ops': map<string, Identity>, p: seq<string>, key: string,
      next: string)
    requires SameLinks(ops, ops') && NewlyRotated(ops, ops', key) && Path(keys, ops, p)
    requires Link(keys, ops', key, next) && Terminal(ops', next)
    ensures Path(keys, ops', if p[|p| - 1] == key then p + [next] else p)
  {
    var q := if p[|p| - 1] == key then p + [next] else p;
    forall i | 0 <= i < |q| - 1
      ensures Link(keys, ops', q[i], q[i + 1])
    {
      if i < |p| - 1 {
        assert Link(keys, ops, p[i], p[i + 1]);
      }
    }
  }

  lemma PathStays(keys: Keys, ops: map<string, Identity>, ops': map<string, Identity>, p: seq<string>)
    requires Quiet(ops, ops') && Path(keys, ops, p)
    ensures Path(keys, ops', p)
  {
    forall i | 0 <= i < |p| - 1
      ensures Link(keys, ops', p[i], p[i + 1])
    {
      assert Link(keys, ops, p[i], p[i + 1]);
    }
  }

  lemma ReachesStays(keys: Keys, ops: map<string, Identity>, ops': map<string, Identity>, from: string, to: string)
    requires Quiet(ops, ops') && Reaches(keys, ops, from, to)
    ensures Reaches(keys, ops', from, to)
  {
    var p :| Leads(keys, ops, p, from, to);
    PathStays(keys, ops, ops', p);
    assert Leads(keys, ops', p, from, to);
  }

  lemma ReachesGoesOn(
      keys: Keys, ops: map<string, Identity>, ops': map<string, Identity>, from: string, to: string,
      key: string, next: string)
    requires SameLinks(ops, ops') && NewlyRotated(ops, ops', key) && Reaches(keys, ops, from, to)
    requires Link(keys, ops', key, next) && Terminal(ops', next)
    ensures Reaches(keys, ops', from, if to == key then next else to)
  {
    var p :| Leads(keys, ops, p, from, to);
    PathGoesOn(keys, ops, ops', p, key, next);
    assert Leads(keys, ops', if to == key then p + [next] else p, from, if to == key then next else to);
  }

  lemma TerminalEnds(keys: Keys, ops: map<string, Identity>, key: string)
    requires Terminal(ops, key)
    ensures Reaches(keys, ops, key, key)
  {
    assert Leads(keys, ops, [key], key, key);
  }

  // ---- Each step keeps the chains ----

  lemma QuietStepKeepsChains(keys: Keys, ops: map<string, Identity>, ops': map<string, Identity>)
    requires ChainsEnd(keys, ops) && Quiet(ops, ops')
    ensures ChainsEnd(keys, ops')
  {
    forall k | k in ops'
      ensures Ends(keys, ops', k)
    {
      if k in ops {
        var to :| Reaches(keys, ops, k, to);
        ReachesStays(keys, ops, ops', k, to);
      } else {
        TerminalEnds(keys, ops', k);
      }
    }
  }

  lemma QuietStepKeepsNode(keys: Keys, ops: map<string, Identity>, ops': map<string, Identity>, b: Binding, key: string)
    requires NodeOk(keys, ops, b, key) && Quiet(ops, ops')
    ensures NodeOk(keys, ops', b, key)
  {
    if b.Live() {
      ReachesStays(keys, ops, ops', b.key, key);
    }
  }

  lemma QuietStepKeepsNodes(keys: Keys, st: State, st': State)
    requires NodesOk(keys, st) && Quiet(st.operators, st'.operators) && SameBindings(st, st')
    ensures NodesOk(keys, st')
  {
    forall n | n in st'.nodes && st'.nodes[n].operator.Some?
      ensures n in st'.written && NodeOk(keys, st'.operators, st'.written[n], st'.nodes[n].operator.value)
    {
      QuietStepKeepsNode(keys, st.operators, st'.operators, st.written[n], st.nodes[n].operator.value);
    }
  }

  lemma RotationShape(keys: Keys, st: State, key: string, next: string, requested: Option<nat>, reason: string)
    requires RotationError(keys, st.operators, key, next).None?
    ensures var ops' := RotateStep(keys, st, key, next, requested, reason).operators;
            && SameLinks(st.operators, ops') && NewlyRotated(st.operators, ops', key)
            && Link(keys, ops', key, next) && Terminal(ops', next)
            && ops'[next].profile.origin == st.operators[key].profile.origin
            && forall k :: k in st.operators ==> ops'[k].profile.origin == st.operators[k].profile.origin
  {
  }

  lemma RotatedChainsEnd(keys: Keys, ops: map<string, Identity>, ops': map<string, Identity>, key: string, next: string)
    requires ChainsEnd(keys, ops) && SameLinks(ops, ops') && NewlyRotated(ops, ops', key) && key in ops
    requires Link(keys, ops', key, next) && Terminal(ops', next)
    ensures ChainsEnd(keys, ops')
  {
    forall k | k in ops'
      ensures Ends(keys, ops', k)
    {
      if k in ops {
        var to :| Reaches(keys, ops, k, to);
        ReachesGoesOn(keys, ops, ops', k, to, key, next);
      } else {
        TerminalEnds(keys, ops', k);
      }
    }
  }

  // A node under the rotated key moves to its successor; every other stays where it is.
  lemma RotationKeepsNode(
      keys: Keys, ops: map<string, Identity>, ops': map<string, Identity>, b: Binding, at: string,
      key: string, next: string)
    requires NodeOk(keys, ops, b, at) && SameLinks(ops, ops') && NewlyRotated(ops, ops', key) && !IsRotated(ops, key)
    requires Link(keys, ops', key, next) && Terminal(ops', next)
    ensures NodeOk(keys, ops', b, if at == key then next else at)
  {
    if b.Live() {
      ReachesGoesOn(keys, ops, ops', b.key, at, key, next);
    }
  }

  lemma RotationKeepsNodes(keys: Keys, st: State, key: string, next: string, requested: Option<nat>, reason: string)
    requires NodesOk(keys, st) && RotationError(keys, st.operators, key, next).None?
    ensures NodesOk(keys, RotateStep(keys, st, key, next, requested, reason))
  {
    var st' := RotateStep(keys, st, key, next, requested, reason);
    RotationShape(keys, st, key, next, requested, reason);
    forall n | n in st'.nodes && st'.nodes[n].operator.Some?
      ensures n in st'.written && NodeOk(keys, st'.operators, st'.written[n], st'.nodes[n].operator.value)
    {
      RotationKeepsNode(keys, st.operators, st'.operators, st.written[n], st.nodes[n].operator.value, key, next);
    }
  }

  lemma RotationKeepsChains(keys: Keys, st: State, key: string, next: string, requested: Option<nat>, reason: string)
    requires ChainsEnd(keys, st.operators) && NodesOk(keys, st)
    ensures var st' := RotateStep(keys, st, key, next, requested, reason);
            ChainsEnd(keys, st'.operators) && NodesOk(keys, st')
  {
    if RotationError(keys, st.operators, key, next).None? {
      RotationShape(keys, st, key, next, requested, reason);
      RotatedChainsEnd(keys, st.operators, RotateStep(keys, st, key, next, requested, reason).operators, key, next);
      RotationKeepsNodes(keys, st, key, next, requested, reason);
    }
  }

  lemma BindingKeepsNodes(keys: Keys, st: State, node: string, row: BoundNode)
    requires NodesOk(keys, st)
    ensures NodesOk(keys, BindStep(st, node, row))
  {
    if row.operator.Some? && !IsRotated(st.operators, row.operator.value) {
      TerminalEnds(keys, st.operators, row.operator.value);
    }
  }

  lemma QuietStepKeepsBoth(keys: Keys, st: State, st': State)
    requires ChainsEnd(keys, st.operators) && NodesOk(keys, st)
    requires Quiet(st.operators, st'.operators) && SameBindings(st, st')
    ensures ChainsEnd(keys, st'.operators) && NodesOk(keys, st')
  {
    QuietStepKeepsChains(keys, st.operators, st'.operators);
    QuietStepKeepsNodes(keys, st, st');
  }

  lemma StepKeepsChains(keys: Keys, st: State, s: Step)
    requires ChainsEnd(keys, st.operators) && NodesOk(keys, st)
    ensures ChainsEnd(keys, Next(keys, st, s).operators) && NodesOk(keys, Next(keys, st, s))
  {
    match s.action
    case Register(key, profile) =>
      RegisterIsQuiet(st, key, profile);
      QuietStepKeepsBoth(keys, st, RegisterStep(st, key, profile));
    case Bind(node, row) =>
      BindingKeepsNodes(keys, st, node, row);
    case Rotate(key, next, requested, reason) =>
      RotationKeepsChains(keys, st, key, next, requested, reason);
    case Revoke(key, reason) =>
      RevokeIsQuiet(keys, st, key, reason);
      QuietStepKeepsBoth(keys, st, RevokeStep(keys, st, key, reason));
  }

  ghost predicate NothingYet(st: State) {
    st.operators == map[] && st.policy == map[] && forall n :: n in st.nodes ==> st.nodes[n].operator.None?
  }

  // In every run successor links from any identity reach one that was not rotated, and
  // every node is where its last write left it or where the rotations since have led.
  lemma {:induction false} RunKeepsChains(keys: Keys, st: State, steps: seq<Step>)
    requires NothingYet(st)
    ensures ChainsEnd(keys, Run(keys, st, steps).operators) && NodesOk(keys, Run(keys, st, steps))
  {
    if steps != [] {
      var n := |steps| - 1;
      RunKeepsChains(keys, st, steps[..n]);
      StepKeepsChains(keys, Run(keys, st, steps[..n]), steps[n]);
    }
  }

  // ---- Nodes written too late ----

  lemma PathEndsTerminal(keys: Keys, ops: map<string, Identity>, from: string, to: string)
    requires Reaches(keys, ops, from, to)
    ensures Terminal(ops, to)
  {
    var p :| Leads(keys, ops, p, from, to);
  }

  // In every run a node's key is where the chain of the key it was written under ends
  // exactly when that key was not rotated at the write, however much earlier it had been
  // checked. And in any case successor links from the node's key reach an end.
  lemma NodeEndsItsChainIff(keys: Keys, st: State, steps: seq<Step>, node: string)
    requires NothingYet(st)
    requires var s := Run(keys, st, steps); node in s.nodes && s.nodes[node].operator.Some?
    ensures var s := Run(keys, st, steps);
            && node in s.written
            && (Reaches(keys, s.operators, s.written[node].key, s.nodes[node].operator.value)
              <==> s.written[node].Live())
            && (Terminal(s.operators, s.nodes[node].operator.value) <==> s.written[node].Live())
            && Ends(keys, s.operators, s.nodes[node].operator.value)
  {
    var s := Run(keys, st, steps);
    RunKeepsChains(keys, st, steps);
    var key, b := s.nodes[node].operator.value, s.written[node];
    assert NodeOk(keys, s.operators, b, key);
    if Reaches(keys, s.operators, b.key, key) {
      PathEndsTerminal(keys, s.operators, b.key, key);
    }
    if key !in s.operators {
      TerminalEnds(keys, s.operators, key);
    }
  }

  // What `written` remembers is the last write of the node in the run.
  lemma {:induction false} WrittenByLastBind(keys: Keys, st: State, steps: seq<Step>, node: string) returns (i: nat)
    requires NothingYet(st) && st.written == map[] && node in Run(keys, st, steps).written
    ensures i < |steps| && steps[i].commits && steps[i].action.Bind? && steps[i].action.node == node
    ensures steps[i].action.row.operator.Some?
    ensures var b := Run(keys, st, steps).written[node];
            && b.key == steps[i].action.row.operator.value
            && b.found == StatusOf(Run(keys, st, steps[..i]).operators, b.key)
    ensures forall j :: i < j < |steps| && steps[j].commits && steps[j].action.Bind? ==> steps[j].action.node != node
  {
    var n := |steps| - 1;
    var s := steps[n];
    if s.commits && s.action.Bind? && s.action.node == node {
      i := n;
    } else {
      i := WrittenByLastBind(keys, st, steps[..n], node);
      assert steps[..n][..i] == steps[..i];
    }
  }

  // A node written under a revoked key stays there, and no other verified node has one.
  ghost predicate TrustOk(ops: map<string, Identity>, row: BoundNode, b: Binding) {
    row.operator.Some? ==>
      && (b.found == Some(Revoked) ==> row.operator == Some(b.key) && StatusOf(ops, b.key) == Some(Revoked))
      && (row.verified && StatusOf(ops, row.operator.value) == Some(Revoked) ==> b.found == Some(Revoked))
  }

  ghost predicate AllTrustOk(st: State) {
    forall n :: n in st.nodes && st.nodes[n].operator.Some?
      ==> n in st.written && TrustOk(st.operators, st.nodes[n], st.written[n])
  }

  lemma RegisterKeepsTrust(st: State, key: string, profile: Profile)
    requires AllTrustOk(st)
    ensures AllTrustOk(RegisterStep(st, key, profile))
  {
    var st' := RegisterStep(st, key, profile);
    forall n | n in st'.nodes && st'.nodes[n].operator.Some?
      ensures TrustOk(st'.operators, st'.nodes[n], st'.written[n])
    {
      assert TrustOk(st.operators, st.nodes[n], st.written[n]);
    }
  }

  lemma RotateKeepsTrust(keys: Keys, st: State, key: string, next: string, requested: Option<nat>, reason: string)
    requires AllTrustOk(st)
    ensures AllTrustOk(RotateStep(keys, st, key, next, requested, reason))
  {
    var st' := RotateStep(keys, st, key, next, requested, reason);
    forall n | n in st'.nodes && st'.nodes[n].operator.Some?
      ensures n in st'.written && TrustOk(st'.operators, st'.nodes[n], st'.written[n])
    {
      assert TrustOk(st.operators, st.nodes[n], st.written[n]);
    }
  }

  lemma RevokeKeepsTrust(keys: Keys, st: State, key: string, reason: string)
    requires AllTrustOk(st)
    ensures AllTrustOk(RevokeStep(keys, st, key, reason))
  {
    var st' := RevokeStep(keys, st, key, reason);
    forall n | n in st'.nodes && st'.nodes[n].operator.Some?
      ensures n in st'.written && TrustOk(st'.operators, st'.nodes[n], st'.written[n])
    {
      assert TrustOk(st.operators, st.nodes[n], st.written[n]);
    }
  }

  lemma {:induction false} RunKeepsTrust(keys: Keys, st: State, steps: seq<Step>)
    requires NothingYet(st)
    ensures AllTrustOk(Run(keys, st, steps))
  {
    if steps != [] {
      var n := |steps| - 1;
      var before := Run(keys, st, steps[..n]);
      RunKeepsTrust(keys, st, steps[..n]);
      match steps[n].action
      case Register(key, profile) => RegisterKeepsTrust(before, key, profile);
      case Bind(node, row) =>
      case Rotate(key, next, requested, reason) => RotateKeepsTrust(keys, before, key, next, requested, reason);
      case Revoke(key, reason) => RevokeKeepsTrust(keys, before, key, reason);
    }
  }

  // In every run a verified node is under a revoked key exactly when its last write found
  // the key revoked already.
  lemma RevokedNodesWereWrittenLate(keys: Keys, st: State, steps: seq<Step>, node: string)
    requires NothingYet(st)
    requires var s := Run(keys, st, steps); node in s.nodes && s.nodes[node].operator.Some? && s.nodes[node].verified
    ensures var s := Run(keys, st, steps);
            && node in s.written
            && (StatusOf(s.operators, s.nodes[node].operator.value) == Some(Revoked)
              <==> s.written[node].found == Some(Revoked))
  {
    RunKeepsTrust(keys, st, steps);
  }

  // A key is active when a registration checks it, is rotated in between, and the write
  // leaves the node behind.
  function ToyKeys(): Keys {
    Keys(key => if |key| == 1 then Some(seq(32, _ => key[0] as int)) else None,
         raw => if |raw| > 0 && raw[0] == 'a' as int then "1" else "2")
  }

  function ToyProfile(): Profile {
    Profile(None, Origin(0, None, None), Standing(None, None, None, None))
  }

  const EMPTY := State(map[], map[], map[], map[])

  lemma RunOneMore(keys: Keys, st: State, steps: seq<Step>, s: Step)
    ensures Run(keys, st, steps + [s]) == Next(keys, Run(keys, st, steps), s)
  {
    assert (steps + [s])[..|steps|] == steps;
  }

  lemma ToyRotation(ops: map<string, Identity>)
    requires IsActive(ops, "a") && "b" !in ops
    ensures RotationError(ToyKeys(), ops, "a", "b") == None
  {
    assert "a" != "b" by {
      assert "a"[0] != "b"[0];
    }
    assert |ToyKeys().decode("a").value| == 32 && |ToyKeys().decode("b").value| == 32;
  }

  lemma RegistrationCanComeLate(row: BoundNode) returns (keys: Keys, checked: State, steps: seq<Step>)
    requires row.operator == Some("a")
    ensures NothingYet(EMPTY) && steps != [] && checked == Run(keys, EMPTY, steps[..1])
      && IsActive(checked.operators, "a")
    ensures steps[|steps| - 1] == Step(Bind("n", row), true)
    ensures var s := Run(keys, EMPTY, steps); "n" in s.nodes && s.nodes["n"] == row && IsRotated(s.operators, "a")
    ensures !Reaches(keys, Run(keys, EMPTY, steps).operators, "a", "a")
  {
    keys := ToyKeys();
    var register := Step(Register("a", ToyProfile()), true);
    var rotate := Step(Rotate("a", "b", None, ""), true);
    var bind := Step(Bind("n", row), true);
    steps := [register, rotate, bind];
    RunOneMore(keys, EMPTY, [], register);
    RunOneMore(keys, EMPTY, [register], rotate);
    RunOneMore(keys, EMPTY, [register, rotate], bind);
    assert steps[..1] == [] + [register] && [register] + [rotate] == [register, rotate];
    assert steps == [register, rotate] + [bind];
    checked := Next(keys, EMPTY, register);
    ToyRotation(checked.operators);
    var s := Run(keys, EMPTY, steps);
    if Reaches(keys, s.operators, "a", "a") {
      PathEndsTerminal(keys, s.operators, "a", "a");
    }
  }

  // ---- Distinct keys have distinct fingerprints: links are functions both ways ----

  ghost predicate SeparateKeys(keys: Keys, ops: map<string, Identity>) {
    forall a, b :: a in ops && b in ops && Fingerprint(keys, a).Some? && Fingerprint(keys, a) == Fingerprint(keys, b)
      ==> a == b
  }

  lemma PathGoesOnUnlessTerminal(keys: Keys, ops: map<string, Identity>, p: seq<string>)
    requires Path(keys, ops, p)
    ensures |p| > 1 <==> !Terminal(ops, p[0])
    ensures |p| > 1 ==> Link(keys, ops, p[0], p[1])
  {
    if |p| > 1 {
      assert Link(keys, ops, p[0], p[1]);
    }
  }

  // Every path from a key is the same path.
  lemma {:induction false} PathIsUnique(keys: Keys, ops: map<string, Identity>, p: seq<string>, q: seq<string>)
    requires SeparateKeys(keys, ops) && Path(keys, ops, p) && Path(keys, ops, q) && p[0] == q[0]
    ensures p == q
  {
    PathGoesOnUnlessTerminal(keys, ops, p);
    PathGoesOnUnlessTerminal(keys, ops, q);
    if |p| > 1 {
      SuffixIsPath(keys, ops, p, 1);
      SuffixIsPath(keys, ops, q, 1);
      PathIsUnique(keys, ops, p[1..], q[1..]);
      assert p == [p[0]] + p[1..] && q == [q[0]] + q[1..];
    }
  }

  lemma SuffixIsPath(keys: Keys, ops: map<string, Identity>, p: seq<string>, i: nat)
    requires Path(keys, ops, p) && i < |p|
    ensures Path(keys, ops, p[i..])
  {
    forall j | 0 <= j < |p[i..]| - 1
      ensures Link(keys, ops, p[i..][j], p[i..][j + 1])
    {
      assert Link(keys, ops, p[i + j], p[i + j + 1]);
    }
  }

  // No chain comes back to a key it has left.
  lemma NoCycles(keys: Keys, ops: map<string, Identity>, p: seq<string>, i: nat, j: nat)
    requires SeparateKeys(keys, ops) && Path(keys, ops, p) && i < j < |p|
    ensures p[i] != p[j]
  {
    if p[i] == p[j] {
      SuffixIsPath(keys, ops, p, i);
      SuffixIsPath(keys, ops, p, j);
      PathIsUnique(keys, ops, p[i..], p[j..]);
      assert false;
    }
  }

  // ---- What the lifecycle tables say ----

  // Each rotated identity names a registered successor, and no two the same one.
  ghost predicate Linked(keys: Keys, ops: map<string, Identity>) {
    && (forall k :: k in ops && ops[k].status == Rotated ==> exists s :: Link(keys, ops, k, s))
    && (forall a, b, s :: Link(keys, ops, a, s) && Link(keys, ops, b, s) ==> a == b)
  }

  // Successors inherit what was pinned when the chain began.
  ghost predicate OriginsKept(keys: Keys, ops: map<string, Identity>) {
    forall a, b :: Link(keys, ops, a, b) ==> ops[a].profile.origin == ops[b].profile.origin
  }

  function ReasonOf(id: Identity): string {
    if id.reason.Some? then id.reason.value else ""
  }

  // The public record of a key says what its identity's row says.
  ghost predicate RecordOf(id: Identity, policy: map<string, PolicyRecord>, h: Option<string>) {
    match id.status
    case Active => id.epoch == None && (h.Some? ==> h.value !in policy)
    case Rotated =>
      && h.Some? && h.value in policy
      && policy[h.value] == PolicyRecord(Superseded, id.epoch, ReasonOf(id), id.successor)
    case Revoked =>
      h.Some? && h.value in policy && policy[h.value] == PolicyRecord(KeyRevoked, None, ReasonOf(id), None)
  }

  ghost predicate Recorded(keys: Keys, st: State) {
    && (forall k :: k in st.operators ==> RecordOf(st.operators[k], st.policy, Fingerprint(keys, k)))
    && (forall h :: h in st.policy ==> exists k :: k in st.operators && Fingerprint(keys, k) == Some(h))
  }

  lemma LinkAfterRotation(
      keys: Keys, ops: map<string, Identity>, ops': map<string, Identity>, key: string, next: string,
      a: string, s: string)
    requires Linked(keys, ops) && SeparateKeys(keys, ops') && SameLinks(ops, ops') && NewlyRotated(ops, ops', key)
    requires Link(keys, ops', key, next) && next !in ops && !(key in ops && ops[key].status == Rotated)
    requires Link(keys, ops', a, s)
    ensures (a == key && s == next) || (a != key && s != next && Link(keys, ops, a, s))
  {
    if a != key {
      var t :| Link(keys, ops, a, t);
      assert s == t;
    }
  }

  lemma RotatedLinks(keys: Keys, ops: map<string, Identity>, ops': map<string, Identity>, key: string, next: string)
    requires Linked(keys, ops) && SeparateKeys(keys, ops') && SameLinks(ops, ops') && NewlyRotated(ops, ops', key)
    requires Link(keys, ops', key, next) && next !in ops && !(key in ops && ops[key].status == Rotated)
    ensures Linked(keys, ops')
  {
    forall a, s | Link(keys, ops', a, s)
      ensures (a == key && s == next) || (a != key && s != next && Link(keys, ops, a, s))
    {
      LinkAfterRotation(keys, ops, ops', key, next, a, s);
    }
    forall k | k in ops' && ops'[k].status == Rotated
      ensures exists s :: Link(keys, ops', k, s)
    {
      if k != key {
        LinkStays(keys, ops, ops', k);
      }
    }
  }

  lemma RotatedOrigins(keys: Keys, ops: map<string, Identity>, ops': map<string, Identity>, key: string, next: string)
    requires Linked(keys, ops) && SeparateKeys(keys, ops') && SameLinks(ops, ops') && NewlyRotated(ops, ops', key)
    requires Link(keys, ops', key, next) && next !in ops && key in ops && ops[key].status != Rotated
    requires OriginsKept(keys, ops) && forall k :: k in ops ==> ops'[k].profile.origin == ops[k].profile.origin
    requires ops'[next].profile.origin == ops[key].profile.origin
    ensures OriginsKept(keys, ops')
  {
    forall a, s | Link(keys, ops', a, s)
      ensures ops'[a].profile.origin == ops'[s].profile.origin
    {
      LinkAfterRotation(keys, ops, ops', key, next, a, s);
    }
  }

  lemma RotationKeepsLinks(keys: Keys, st: State, key: string, next: string, requested: Option<nat>, reason: string)
    requires Linked(keys, st.operators) && OriginsKept(keys, st.operators)
    requires SeparateKeys(keys, RotateStep(keys, st, key, next, requested, reason).operators)
    ensures var ops' := RotateStep(keys, st, key, next, requested, reason).operators;
            Linked(keys, ops') && OriginsKept(keys, ops')
  {
    var ops, ops' := st.operators, RotateStep(keys, st, key, next, requested, reason).operators;
    if RotationError(keys, ops, key, next).None? {
      RotationShape(keys, st, key, next, requested, reason);
      RotatedLinks(keys, ops, ops', key, next);
      RotatedOrigins(keys, ops, ops', key, next);
    }
  }

  lemma LinkStays(keys: Keys, ops: map<string, Identity>, ops': map<string, Identity>, k: string)
    requires Linked(keys, ops) && SameLinks(ops, ops') && k in ops && ops[k].status == Rotated
    ensures exists s :: Link(keys, ops', k, s)
  {
    var s :| Link(keys, ops, k, s);
    assert Link(keys, ops', k, s);
  }

  lemma QuietStepKeepsLinks(keys: Keys, ops: map<string, Identity>, ops': map<string, Identity>)
    requires Linked(keys, ops) && OriginsKept(keys, ops) && SeparateKeys(keys, ops') && Quiet(ops, ops')
    ensures Linked(keys, ops') && OriginsKept(keys, ops')
  {
    forall a, s | Link(keys, ops', a, s)
      ensures Link(keys, ops, a, s)
    {
      var t :| Link(keys, ops, a, t);
      assert s == t;
    }
    forall k | k in ops' && ops'[k].status == Rotated
      ensures exists s :: Link(keys, ops', k, s)
    {
      LinkStays(keys, ops, ops', k);
    }
  }

  lemma StepKeepsLinks(keys: Keys, st: State, s: Step)
    requires Linked(keys, st.operators) && OriginsKept(keys, st.operators)
      && SeparateKeys(keys, Next(keys, st, s).operators)
    ensures Linked(keys, Next(keys, st, s).operators) && OriginsKept(keys, Next(keys, st, s).operators)
  {
    match s.action
    case Register(key, profile) =>
      RegisterIsQuiet(st, key, profile);
      QuietStepKeepsLinks(keys, st.operators, Next(keys, st, s).operators);
    case Bind(node, row) =>
    case Rotate(key, next, requested, reason) =>
      if s.commits {
        RotationKeepsLinks(keys, st, key, next, requested, reason);
      }
    case Revoke(key, reason) =>
      RevokeIsQuiet(keys, st, key, reason);
      QuietStepKeepsLinks(keys, st.operators, Next(keys, st, s).operators);
  }

  // One key's identity and its record are written together; the rest stay.
  lemma RecordsMove(keys: Keys, st: State, st': State, key: string)
    requires Recorded(keys, st) && SeparateKeys(keys, st'.operators) && key in st.operators
    requires st.operators.Keys <= st'.operators.Keys
    requires RecordOf(st'.operators[key], st'.policy, Fingerprint(keys, key))
    requires forall k :: k in st.operators && k != key ==> st'.operators[k] == st.operators[k]
    requires forall k ::
      k in st'.operators && k !in st.operators ==> st'.operators[k].status == Active && st'.operators[k].epoch == None
    requires forall h :: Fingerprint(keys, key) != Some(h) ==> (h in st'.policy <==> h in st.policy)
    requires forall h :: Fingerprint(keys, key) != Some(h) && h in st.policy ==> st'.policy[h] == st.policy[h]
    ensures Recorded(keys, st')
  {
    forall k | k in st'.operators
      ensures RecordOf(st'.operators[k], st'.policy, Fingerprint(keys, k))
    {
      if k in st.operators && k != key {
        assert RecordOf(st.operators[k], st.policy, Fingerprint(keys, k));
      }
    }
    forall h | h in st'.policy
      ensures exists k :: k in st'.operators && Fingerprint(keys, k) == Some(h)
    {
      if h in st.policy {
        var k :| k in st.operators && Fingerprint(keys, k) == Some(h);
        assert k in st'.operators;
      }
    }
  }

  // A registration touches neither records nor what they say of an identity.
  lemma RegisterKeepsRecords(keys: Keys, st: State, st': State, key: string)
    requires Recorded(keys, st) && SeparateKeys(keys, st'.operators) && st'.policy == st.policy
    requires st'.operators.Keys == st.operators.Keys + {key}
    requires forall k :: k in st.operators ==> st'.operators[k] == st.operators[k].(profile := st'.operators[k].profile)
    requires key !in st.operators ==> st'.operators[key].status == Active && st'.operators[key].epoch == None
    ensures Recorded(keys, st')
  {
    forall k | k in st'.operators
      ensures RecordOf(st'.operators[k], st'.policy, Fingerprint(keys, k))
    {
      if k in st.operators {
        assert RecordOf(st.operators[k], st.policy, Fingerprint(keys, k));
      }
    }
    forall h | h in st'.policy
      ensures exists k :: k in st'.operators && Fingerprint(keys, k) == Some(h)
    {
      var k :| k in st.operators && Fingerprint(keys, k) == Some(h);
      assert k in st'.operators;
    }
  }

  lemma RegisterStepKeepsRecords(keys: Keys, st: State, key: string, profile: Profile)
    requires Recorded(keys, st) && SeparateKeys(keys, RegisterStep(st, key, profile).operators)
    ensures Recorded(keys, RegisterStep(st, key, profile))
  {
    RegisterKeepsRecords(keys, st, RegisterStep(st, key, profile), key);
  }

  lemma RotateWritesRecord(keys: Keys, st: State, key: string, next: string, requested: Option<nat>, reason: string)
    requires RotationError(keys, st.operators, key, next).None?
    ensures var st' := RotateStep(keys, st, key, next, requested, reason);
            && st'.operators[next].status == Active && st'.operators[next].epoch == None
            && RecordOf(st'.operators[key], st'.policy, Fingerprint(keys, key))
  {
  }

  lemma RotateKeepsRecords(keys: Keys, st: State, key: string, next: string, requested: Option<nat>, reason: string)
    requires Recorded(keys, st) && SeparateKeys(keys, RotateStep(keys, st, key, next, requested, reason).operators)
    ensures Recorded(keys, RotateStep(keys, st, key, next, requested, reason))
  {
    if RotationError(keys, st.operators, key, next).None? {
      RotateWritesRecord(keys, st, key, next, requested, reason);
      RecordsMove(keys, st, RotateStep(keys, st, key, next, requested, reason), key);
    }
  }

  lemma RevokeKeepsRecords(keys: Keys, st: State, key: string, reason: string)
    requires Recorded(keys, st) && SeparateKeys(keys, RevokeStep(keys, st, key, reason).operators)
    ensures Recorded(keys, RevokeStep(keys, st, key, reason))
  {
    if RevocationError(keys, st.operators, key).None? {
      assert RecordOf(st.operators[key], st.policy, Fingerprint(keys, key));
      RecordsMove(keys, st, RevokeStep(keys, st, key, reason), key);
    }
  }

  lemma StepKeepsRecords(keys: Keys, st: State, s: Step)
    requires Recorded(keys, st) && SeparateKeys(keys, Next(keys, st, s).operators)
    ensures Recorded(keys, Next(keys, st, s))
  {
    if s.commits {
      match s.action
      case Register(key, profile) => RegisterStepKeepsRecords(keys, st, key, profile);
      case Bind(node, row) =>
      case Rotate(key, next, requested, reason) => RotateKeepsRecords(keys, st, key, next, requested, reason);
      case Revoke(key, reason) => RevokeKeepsRecords(keys, st, key, reason);
    }
  }

  lemma KeysGrow(keys: Keys, st: State, s: Step)
    ensures st.operators.Keys <= Next(keys, st, s).operators.Keys
  {
  }

  // In every run over keys with distinct fingerprints, no two identities share a
  // successor, successors inherit the origin, and the public key records agree.
  lemma {:induction false} RunKeepsLinks(keys: Keys, st: State, steps: seq<Step>)
    requires NothingYet(st) && SeparateKeys(keys, Run(keys, st, steps).operators)
    ensures Linked(keys, Run(keys, st, steps).operators) && OriginsKept(keys, Run(keys, st, steps).operators)
    ensures Recorded(keys, Run(keys, st, steps))
  {
    if steps != [] {
      var n := |steps| - 1;
      var before := Run(keys, st, steps[..n]);
      KeysGrow(keys, before, steps[n]);
      RunKeepsLinks(keys, st, steps[..n]);
      StepKeepsLinks(keys, before, steps[n]);
      StepKeepsRecords(keys, before, steps[n]);
    }
  }

  // The end of a chain carries the origin of its beginning.
  lemma {:induction false} PathKeepsOrigin(keys: Keys, ops: map<string, Identity>, p: seq<string>, i: nat)
    requires OriginsKept(keys, ops) && Path(keys, ops, p) && i < |p| && p[0] in ops
    ensures p[i] in ops && ops[p[i]].profile.origin == ops[p[0]].profile.origin
  {
    if i > 0 {
      PathKeepsOrigin(keys, ops, p, i - 1);
      assert Link(keys, ops, p[i - 1], p[i]);
    }
  }

  lemma StepKeepsRetired(keys: Keys, st: State, s: Step, key: string)
    requires key in st.operators && st.operators[key].status != Active
    ensures var ops := Next(keys, st, s).operators;
            key in ops && ops[key] == st.operators[key].(profile := ops[key].profile)
  {
  }

  // A retired identity never changes again, but for the name it shows.
  lemma {:induction false} RetirementIsFinal(keys: Keys, st: State, steps: seq<Step>, key: string)
    requires key in st.operators && st.operators[key].status != Active
    ensures var ops := Run(keys, st, steps).operators;
            key in ops && ops[key] == st.operators[key].(profile := ops[key].profile)
  {
    if steps != [] {
      var n := |steps| - 1;
      RetirementIsFinal(keys, st, steps[..n], key);
      StepKeepsRetired(keys, Run(keys, st, steps[..n]), steps[n], key);
    }
  }
}
