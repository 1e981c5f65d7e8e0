// Operator identities: registration, node bindings, key rotation and revocation.
module Operators {
  import opened Text
  import opened Database

  datatype Status = Active | Rotated | Revoked

  // Pinned when the identity is first seen.
  datatype Origin = Origin(firstSeen: int, attestedAt: Option<string>, integrity: Option<string>)

  datatype Standing = Standing(ordinal: Option<int>, tier: Option<string>, badge: Option<string>,
    provenance: Option<string>)

  datatype Profile = Profile(displayName: Option<string>, origin: Origin, standing: Standing)

  datatype Identity = Identity(status: Status, profile: Profile, successor: Option<string>, epoch: Option<nat>,
    reason: Option<string>)

  datatype BoundNode = BoundNode(operator: Option<string>, verified: bool, trustTier: Option<string>,
    manifest: Option<string>)

  datatype PolicyStatus = Superseded | KeyRevoked

  datatype PolicyRecord = PolicyRecord(status: PolicyStatus, epoch: Option<nat>, reason: string,
    supersededBy: Option<string>)

  // Under which key a node was last written, and the status that write found it in.
  datatype Binding = Binding(key: string, found: Option<Status>) {
    predicate Live() {
      found != Some(Rotated)
    }
  }

  // `written` is not stored: it remembers each node's last binding.
  datatype State = State(operators: map<string, Identity>, nodes: map<string, BoundNode>,
    policy: map<string, PolicyRecord>, written: map<string, Binding>)

  datatype LifecycleError = Invalid | Unknown | Inactive | SuccessorExists | Storage

  datatype LifecycleResult = Done(linked: nat, epoch: Option<nat>) | Failed(error: LifecycleError)

  // Base64 decoding and hex SHA-256.
  datatype Keys = Keys(decode: string -> Option<seq<int>>, digest: seq<int> -> string)

  const U32_MAX: nat := 0xFFFF_FFFF

  // What the lifecycle tables call a key; only keys of 32 bytes have one.
  function Fingerprint(keys: Keys, key: string): Option<string> {
    var raw := keys.decode(key);
    if raw.Some? && |raw.value| == 32 then Some(keys.digest(raw.value)) else None
  }

  function WhyInactive(ops: map<string, Identity>, key: string): LifecycleError {
    if key in ops then Inactive else Unknown
  }

  predicate IsActive(ops: map<string, Identity>, key: string) {
    key in ops && ops[key].status == Active
  }

  // What an otherwise undisturbed rotation answers, in the order the checks are made.
  function RotationError(keys: Keys, ops: map<string, Identity>, key: string, next: string): Option<LifecycleError> {
    if key == next then Some(Invalid)
    else if !IsActive(ops, key) then Some(WhyInactive(ops, key))
    else if next in ops then Some(SuccessorExists)
    else if Fingerprint(keys, next).None? || Fingerprint(keys, key).None? then Some(Invalid)
    else None
  }

  function RevocationError(keys: Keys, ops: map<string, Identity>, key: string): Option<LifecycleError> {
    if !IsActive(ops, key) then Some(WhyInactive(ops, key))
    else if Fingerprint(keys, key).None? then Some(Invalid)
    else None
  }

  function NextEpoch(prior: Option<nat>, requested: Option<nat>): nat {
    var p, q := if prior.Some? then prior.value else 0, if requested.Some? then requested.value else 0;
    var bumped := if p + 1 > U32_MAX then U32_MAX else p + 1;
    if bumped >= q then bumped else q
  }

  function NewIdentity(profile: Profile): Identity {
    Identity(Active, profile, None, None, None)
  }

  function BoundTo(nodes: map<string, BoundNode>, key: string): set<string> {
    set n | n in nodes && nodes[n].operator == Some(key)
  }

  ghost function Relinked(nodes: map<string, BoundNode>, key: string, next: string): map<string, BoundNode> {
    map n | n in nodes ::
      if nodes[n].operator == Some(key) then nodes[n].(operator := Some(next), verified := true, manifest := None)
      else nodes[n]
  }

  ghost function Distrusted(nodes: map<string, BoundNode>, key: string): map<string, BoundNode> {
    map n | n in nodes ::
      if nodes[n].operator == Some(key) then nodes[n].(verified := false, trustTier := None, manifest := None)
      else nodes[n]
  }

  function Renamed(id: Identity, displayName: Option<string>): Identity {
    if displayName.None? then id else id.(profile := id.profile.(displayName := displayName))
  }

  // A later registration changes the display name only.
  ghost function RegisterStep(st: State, key: string, profile: Profile): State {
    var known := key in st.operators;
    st.(operators := st.operators[
          key := if known then Renamed(st.operators[key], profile.displayName) else NewIdentity(profile)])
  }

  function StatusOf(ops: map<string, Identity>, key: string): Option<Status> {
    if key in ops then Some(ops[key].status) else None
  }

  predicate IsRotated(ops: map<string, Identity>, key: string) {
    key in ops && ops[key].status == Rotated
  }

  // A registration's write. It does not look at the key again: the check came before, in
  // another transaction.
  ghost function BindStep(st: State, node: string, row: BoundNode): State {
    st.(nodes := st.nodes[node := row],
        written := if row.operator.None? then st.written - {node}
                   else st.written[node := Binding(row.operator.value, StatusOf(st.operators, row.operator.value))])
  }

  ghost function RotateStep(
      keys: Keys, st: State, key: string, next: string, requested: Option<nat>, reason: string): State {
    if RotationError(keys, st.operators, key, next).Some? then st
    else
      var id, heir := st.operators[key], Fingerprint(keys, next);
      var epoch := NextEpoch(id.epoch, requested);
      st.(operators := st.operators[next := NewIdentity(id.profile)]
            [key := id.(status := Rotated, successor := heir, epoch := Some(epoch), reason := Some(reason))],
          nodes := Relinked(st.nodes, key, next),
          policy := st.policy[Fingerprint(keys, key).value := PolicyRecord(Superseded, Some(epoch), reason, heir)])
  }

  ghost function RevokeStep(keys: Keys, st: State, key: string, reason: string): State {
    if RevocationError(keys, st.operators, key).Some? then st
    else
      var h := Fingerprint(keys, key).value;
      var prior := if h in st.policy then st.policy[h] else PolicyRecord(KeyRevoked, None, reason, None);
      st.(operators := st.operators[key := st.operators[key].(status := Revoked, reason := Some(reason))],
          nodes := Distrusted(st.nodes, key),
          policy := st.policy[h := prior.(status := KeyRevoked, reason := reason)])
  }

  datatype Action =
    | Register(key: string, profile: Profile)
    | Bind(node: string, row: BoundNode)
    | Rotate(key: string, next: string, requested: Option<nat>, reason: string)
    | Revoke(key: string, reason: string)

  datatype Step = Step(action: Action, commits: bool)

  ghost function Next(keys: Keys, st: State, s: Step): State {
    if !s.commits then st
    else match s.action
      case Register(key, profile) => RegisterStep(st, key, profile)
      case Bind(node, row) => BindStep(st, node, row)
      case Rotate(key, next, requested, reason) => RotateStep(keys, st, key, next, requested, reason)
      case Revoke(key, reason) => RevokeStep(keys, st, key, reason)
  }

  ghost function Run(keys: Keys, st: State, steps: seq<Step>): State {
    if steps == [] then st else Next(keys, Run(keys, st, steps[..|steps| - 1]), steps[|steps| - 1])
  }

  class Registry {
    var operators: map<string, Identity>
    var nodes: map<string, BoundNode>
    var policy: map<string, PolicyRecord>
    ghost var written: map<string, Binding>

    constructor ()
      ensures View() == State(map[], map[], map[], map[])
    {
      operators, nodes, policy, written := map[], map[], map[], map[];
    }

    ghost function View(): State
      reads this
    {
      State(operators, nodes, policy, written)
    }

    method UpsertOperator(keys: Keys, key: string, profile: Profile, fault: Fault)
      modifies this`operators
      ensures View() == Next(keys, old(View()), Step(Register(key, profile), TakesEffect(fault)))
    {
      if !TakesEffect(fault) {
        return;
      }
      if key in operators {
        operators := operators[key := Renamed(operators[key], profile.displayName)];
        return;
      }
      operators := operators[key := NewIdentity(profile)];
    }

    // What the directory knows of a key: None when it knows nothing, or cannot read it.
    method OperatorIdentityActive(key: string, readFails: bool) returns (active: Option<bool>)
      ensures active == if !readFails && key in operators then Some(IsActive(operators, key)) else None
    {
      active := if !readFails && key in operators then Some(operators[key].status == Active) else None;
    }

    method WriteNode(keys: Keys, node: string, row: BoundNode, fault: Fault)
      modifies this`nodes, this`written
      ensures View() == Next(keys, old(View()), Step(Bind(node, row), TakesEffect(fault)))
    {
      if TakesEffect(fault) {
        nodes := nodes[node := row];
        written := if row.operator.None? then written - {node}
                   else written[node := Binding(row.operator.value, StatusOf(operators, row.operator.value))];
      }
    }

    // A registration: the key is checked, other sessions have their turn, the node is
    // written. It is refused exactly when the key's identity is read, known and not active.
    method RegisterNode(
        keys: Keys, node: string, row: BoundNode, readFails: bool, between: seq<Step>, fault: Fault)
      returns (accepted: bool)
      modifies this
      ensures !accepted
        <==> !readFails && row.operator.Some? && row.operator.value in old(operators)
             && !IsActive(old(operators), row.operator.value)
      ensures !accepted ==> View() == old(View())
      ensures accepted
        ==> View() == Next(keys, Run(keys, old(View()), between), Step(Bind(node, row), TakesEffect(fault)))
    {
      if row.operator.Some? {
        var active := OperatorIdentityActive(row.operator.value, readFails);
        if active == Some(false) {
          return false;
        }
      }
      OthersCommit(keys, between);
      WriteNode(keys, node, row, fault);
      accepted := true;
    }

    method OthersCommit(keys: Keys, steps: seq<Step>)
      modifies this
      ensures View() == Run(keys, old(View()), steps)
    {
      ghost var st := View();
      assert steps[..0] == [];
      for i := 0 to |steps|
        invariant View() == Run(keys, st, steps[..i])
      {
        assert steps[..i + 1][..i] == steps[..i];
        Commit(keys, steps[i]);
      }
      assert steps[..|steps|] == steps;
    }

    method Commit(keys: Keys, s: Step)
      modifies this
      ensures View() == Next(keys, old(View()), s)
    {
      var fault := if s.commits then NoFault else Permanent;
      match s.action {
        case Register(key, profile) => UpsertOperator(keys, key, profile, fault);
        case Bind(node, row) => WriteNode(keys, node, row, fault);
        case Rotate(key, next, requested, reason) =>
          var _ := RotateOperatorIdentity(keys, key, next, requested, reason, fault);
        case Revoke(key, reason) =>
          var _ := RevokeOperatorIdentity(keys, key, reason, fault);
      }
    }

    // The two statements over the nodes bound to a key, and how many they touch.
    method Relink(key: string, next: string) returns (linked: nat)
      requires key != next
      modifies this`nodes
      ensures nodes == Relinked(old(nodes), key, next)
      ensures linked == |BoundTo(old(nodes), key)| && BoundTo(nodes, key) == {}
    {
      linked := |BoundTo(nodes, key)|;
      nodes := map n | n in nodes ::
        if nodes[n].operator == Some(key) then nodes[n].(operator := Some(next), verified := true, manifest := None)
        else nodes[n];
    }

    method Distrust(key: string) returns (linked: nat)
      modifies this`nodes
      ensures nodes == Distrusted(old(nodes), key) && linked == |BoundTo(old(nodes), key)|
      ensures forall n :: n in BoundTo(nodes, key) ==> !nodes[n].verified
    {
      linked := |BoundTo(nodes, key)|;
      nodes := map n | n in nodes ::
        if nodes[n].operator == Some(key) then nodes[n].(verified := false, trustTier := None, manifest := None)
        else nodes[n];
    }

    // The keys are decoded after the first writes; a malformed one rolls those back.
    method RotateOperatorIdentity(
        keys: Keys, key: string, next: string, requested: Option<nat>, reason: string, fault: Fault)
      returns (r: LifecycleResult)
      modifies this
      ensures View() == Next(keys, old(View()), Step(Rotate(key, next, requested, reason), TakesEffect(fault)))
      ensures TakesEffect(fault) && RotationError(keys, old(operators), key, next).Some?
        ==> r == Failed(RotationError(keys, old(operators), key, next).value)
      ensures r.Done? <==> fault == NoFault && RotationError(keys, old(operators), key, next).None?
      ensures r.Done?
        ==> IsActive(operators, next) && operators[key].status == Rotated && r.epoch == operators[key].epoch
      ensures r.Done? ==> r.linked == |BoundTo(old(nodes), key)| && BoundTo(nodes, key) == {}
    {
      if key == next {
        return Failed(Invalid);
      }
      if !TakesEffect(fault) {
        return Failed(Storage);
      }
      if !IsActive(operators, key) {
        return Failed(WhyInactive(operators, key));
      }
      if next in operators {
        return Failed(SuccessorExists);
      }
      var savedOperators, savedNodes := operators, nodes;
      var id := operators[key];
      var epoch := NextEpoch(id.epoch, requested);
      operators := operators[next := NewIdentity(id.profile)];
      var linked := Relink(key, next);
      var heir, hash := Fingerprint(keys, next), Fingerprint(keys, key);
      if heir.None? || hash.None? {
        operators, nodes := savedOperators, savedNodes;
        return Failed(Invalid);
      }
      policy := policy[hash.value := PolicyRecord(Superseded, Some(epoch), reason, heir)];
      operators := operators[
        key := id.(status := Rotated, successor := heir, epoch := Some(epoch), reason := Some(reason))];
      r := if fault == NoFault then Done(linked, Some(epoch)) else Failed(Storage);
    }

    method RevokeOperatorIdentity(keys: Keys, key: string, reason: string, fault: Fault) returns (r: LifecycleResult)
      modifies this
      ensures View() == Next(keys, old(View()), Step(Revoke(key, reason), TakesEffect(fault)))
      ensures TakesEffect(fault) && RevocationError(keys, old(operators), key).Some?
        ==> r == Failed(RevocationError(keys, old(operators), key).value)
      ensures r.Done? <==> fault == NoFault && RevocationError(keys, old(operators), key).None?
      ensures r.Done? ==> operators[key].status == Revoked && r.linked == |BoundTo(old(nodes), key)|
      ensures r.Done? ==> forall n :: n in BoundTo(nodes, key) ==> !nodes[n].verified
    {
      if !TakesEffect(fault) {
        return Failed(Storage);
      }
      if !IsActive(operators, key) {
        return Failed(WhyInactive(operators, key));
      }
      var savedNodes := nodes;
      var linked := Distrust(key);
      var hash := Fingerprint(keys, key);
      if hash.None? {
        nodes := savedNodes;
        return Failed(Invalid);
      }
      var record := if hash.value in policy then policy[hash.value] else PolicyRecord(KeyRevoked, None, reason, None);
      policy := policy[hash.value := record.(status := KeyRevoked, reason := reason)];
      operators := operators[key := operators[key].(status := Revoked, reason := Some(reason))];
      r := if fault == NoFault then Done(linked, None) else Failed(Storage);
    }
  }
}
