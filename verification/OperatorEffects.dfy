// What each transaction on operator identities does, told from the tables alone.
module OperatorEffects {
  import opened Text
  import opened Database
  import opened Operators

  // ---- Epochs ----

  // A rotation's epoch is past the key's last one, unless that is the largest there is, and
  // not before the one asked for.
  lemma EpochsGrow(prior: Option<nat>, requested: Option<nat>)
    requires (prior.Some? ==> prior.value <= 0xFFFF_FFFF) && (requested.Some? ==> requested.value <= 0xFFFF_FFFF)
    ensures var e := NextEpoch(prior, requested);
            && 1 <= e <= 0xFFFF_FFFF && (requested.Some? ==> e >= requested.value)
            && (prior.Some? ==> e >= prior.value && (prior.value < 0xFFFF_FFFF ==> e > prior.value))
  {
  }

  // It is the first such.
  lemma EpochIsFirst(prior: Option<nat>, requested: Option<nat>, e: nat)
    requires e >= 1 && (prior.Some? ==> e > prior.value) && (requested.Some? ==> e >= requested.value)
    ensures NextEpoch(prior, requested) <= e
  {
  }

  // ---- Rotation and revocation ----

  // The key decodes to 32 bytes.
  predicate Decodes(keys: Keys, key: string) {
    keys.decode(key).Some? && |keys.decode(key).value| == 32
  }

  function HashOf(keys: Keys, key: string): string
    requires Decodes(keys, key)
  {
    keys.digest(keys.decode(key).value)
  }

  // An active key gives way to one that is not in use yet, both of 32 bytes.
  ghost predicate Rotatable(keys: Keys, st: State, key: string, next: string) {
    && key != next && key in st.operators && st.operators[key].status == Active && next !in st.operators
    && Decodes(keys, key) && Decodes(keys, next)
  }

  ghost predicate OtherKeysStay(st: State, st': State, touched: set<string>) {
    && st'.operators.Keys == st.operators.Keys + touched
    && forall k :: k in st.operators && k !in touched ==> st'.operators[k] == st.operators[k]
  }

  // A rotation goes through exactly then. The key is retired with its successor, a new
  // epoch and the reason; the successor starts active under the same profile; the public
  // record says the same; and nodes move along, verified, without their manifest.
  lemma RotationEffect(keys: Keys, st: State, key: string, next: string, requested: Option<nat>, reason: string)
    ensures var st' := Next(keys, st, Step(Rotate(key, next, requested, reason), true));
            if Rotatable(keys, st, key, next) then
              var id := st.operators[key];
              var epoch := NextEpoch(id.epoch, requested);
              && OtherKeysStay(st, st', {key, next})
              && st'.operators[key]
                 == Identity(Rotated, id.profile, Some(HashOf(keys, next)), Some(epoch), Some(reason))
              && st'.operators[next] == Identity(Active, id.profile, None, None, None)
              && st'.policy == st.policy[HashOf(keys, key) :=
                   PolicyRecord(Superseded, Some(epoch), reason, Some(HashOf(keys, next)))]
            else st' == st
    ensures (RotationError(keys, st.operators, key, next) == None <==> Rotatable(keys, st, key, next))
  {
  }

  lemma RotationMovesNodes(
      keys: Keys, st: State, key: string, next: string, requested: Option<nat>, reason: string, node: string)
    requires Rotatable(keys, st, key, next) && node in st.nodes
    ensures var st', row := Next(keys, st, Step(Rotate(key, next, requested, reason), true)), st.nodes[node];
            && node in st'.nodes
            && st'.nodes[node] == if row.operator != Some(key) then row
                                  else BoundNode(Some(next), true, row.trustTier, None)
  {
  }

  // What a refused rotation answers: the first thing wrong, in this order.
  lemma RotationRefusals(keys: Keys, st: State, key: string, next: string)
    ensures var e := RotationError(keys, st.operators, key, next);
            && (key == next ==> e == Some(Invalid))
            && (key != next && key !in st.operators ==> e == Some(Unknown))
            && (key != next && key in st.operators && st.operators[key].status != Active ==> e == Some(Inactive))
            && (key != next && IsActive(st.operators, key) && next in st.operators ==> e == Some(SuccessorExists))
            && (key != next && IsActive(st.operators, key) && next !in st.operators ==>
                  (e == Some(Invalid) <==> !(Decodes(keys, key) && Decodes(keys, next))))
  {
  }

  // A revocation retires an active key of 32 bytes under a reason, which its public record
  // repeats beside the epoch and successor it had; its nodes stay, without trust.
  lemma RevocationEffect(keys: Keys, st: State, key: string, reason: string)
    ensures var st' := Next(keys, st, Step(Revoke(key, reason), true));
            if key in st.operators && st.operators[key].status == Active && Decodes(keys, key) then
              var id, h := st.operators[key], HashOf(keys, key);
              && OtherKeysStay(st, st', {key})
              && st'.operators[key] == Identity(Revoked, id.profile, id.successor, id.epoch, Some(reason))
              && st'.policy.Keys == st.policy.Keys + {h}
              && (forall x :: x in st.policy && x != h ==> st'.policy[x] == st.policy[x])
              && st'.policy[h].status == KeyRevoked && st'.policy[h].reason == reason
              && (h in st.policy ==> st'.policy[h].epoch == st.policy[h].epoch
                                     && st'.policy[h].supersededBy == st.policy[h].supersededBy)
              && (h !in st.policy ==> st'.policy[h].epoch == None && st'.policy[h].supersededBy == None)
            else st' == st
  {
  }

  lemma RevocationDistrustsNodes(keys: Keys, st: State, key: string, reason: string, node: string)
    requires key in st.operators && st.operators[key].status == Active && Decodes(keys, key) && node in st.nodes
    ensures var st', row := Next(keys, st, Step(Revoke(key, reason), true)), st.nodes[node];
            && node in st'.nodes
            && st'.nodes[node] == if row.operator != Some(key) then row else BoundNode(Some(key), false, None, None)
  {
  }

  // ---- Registration ----

  // The first registration of a key fixes all there is; a later one changes the name shown,
  // if it gives one, and nothing else.
  lemma RegistrationEffect(keys: Keys, st: State, key: string, profile: Profile)
    ensures var st' := Next(keys, st, Step(Register(key, profile), true));
            && OtherKeysStay(st, st', {key}) && st'.nodes == st.nodes && st'.policy == st.policy
            && (key !in st.operators ==> st'.operators[key] == Identity(Active, profile, None, None, None))
            && (key in st.operators ==>
                  var id, id' := st.operators[key], st'.operators[key];
                  && id' == id.(profile := id'.profile)
                  && id'.profile.origin == id.profile.origin && id'.profile.standing == id.profile.standing
                  && id'.profile.displayName
                     == if profile.displayName.Some? then profile.displayName else id.profile.displayName)
  {
  }

  // The write of a registration stores the node's row as it is given, and nothing else.
  lemma BindingEffect(keys: Keys, st: State, node: string, row: BoundNode)
    ensures var st' := Next(keys, st, Step(Bind(node, row), true));
            st'.nodes == st.nodes[node := row] && st'.operators == st.operators && st'.policy == st.policy
  {
  }
}
