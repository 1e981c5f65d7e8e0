// The credit transactions as the repository runs them: statements against the tables,
// commit or roll back, and up to three attempts with other sessions in between.
module CreditRepository {
  import opened Text
  import opened Sorting
  import opened Database
  import opened CreditLedger
  import opened CreditAccounting

  datatype AwardResult = Awarded(balance: int) | NonceReplay | NodeNotFound | AwardFailed(transient: bool)

  datatype DebitResult = Debited(spent: int, count: nat) | Insufficient | DebitFailed(transient: bool)

  // A debit on a consumer's behalf, from its operator's wallet if it has an operator.
  datatype Request = Request(consumer: string, owner: Option<string>, amount: nat, task: string, reason: string)

  // What the environment decides for one attempt: the steps other sessions commit before
  // it, the clock, the database's verdict, and whether stamping `updated_at` counts as a
  // change for a debit of nothing.
  datatype Attempt = Attempt(before: seq<Step>, now: int, fault: Fault, stampMoves: bool)

  // What one attempt at an award answers, in the order the code finds out.
  ghost function AwardAnswer(db: Db, node: string, amount: nat, nonce: string, fault: Fault): AwardResult {
    if !TakesEffect(fault) then AwardFailed(fault == Transient)
    else if node !in db.nodes then NodeNotFound
    else if !Agree(AwardLedger(db, node).balance, db.nodes[node].balance) then AwardFailed(false)
    else if NonceUsed(db.txs, nonce) then NonceReplay
    else if fault == LostReply then AwardFailed(false)
    else Awarded(AwardLedger(db, node).balance + amount)
  }

  ghost function DebitAnswer(db: Db, node: string, amount: nat, fault: Fault, stampMoves: bool): DebitResult {
    if !TakesEffect(fault) then DebitFailed(fault == Transient)
    else if !CanDebit(db, node, amount) || (amount == 0 && !stampMoves) then Insufficient
    else if fault == LostReply then DebitFailed(false)
    else Debited(amount, 1)
  }

  // With one row for each node that pays.
  ghost function WalletDebitAnswer(db: Db, cs: seq<Cand>, amount: nat, p: Purpose, fault: Fault): DebitResult {
    if !TakesEffect(fault) then DebitFailed(fault == Transient)
    else if Total(cs) + TOLERANCE < amount then Insufficient
    else
      var drained := DrainFrom(db, cs, 0, amount, p);
      if drained.None? || fault == LostReply then DebitFailed(false)
      else
        DrainAppends(db, cs, 0, amount, p);
        Debited(amount, |drained.value.txs| - |db.txs|)
  }

  // What is left of an answer once no attempt remains.
  function FinalAward(r: AwardResult): AwardResult {
    if r == AwardFailed(true) then AwardFailed(false) else r
  }

  function FinalDebit(r: DebitResult): DebitResult {
    if r == DebitFailed(true) then DebitFailed(false) else r
  }

  // `own` are the attempts a call makes under `plan`: up to three, another one exactly
  // after a transient fault.
  ghost predicate Attempts(plan: nat -> Attempt, own: seq<Step>) {
    && 1 <= |own| <= 3
    && (forall i :: 0 <= i < |own| - 1 ==> plan(i).fault == Transient)
    && (|own| < 3 ==> plan(|own| - 1).fault != Transient)
    && (forall i :: 0 <= i < |own| ==> own[i].now == plan(i).now && (own[i].commits ==> TakesEffect(plan(i).fault)))
  }

  // The tables after a call's attempts, with the other sessions' steps before each.
  ghost function AfterAttempts(db: Db, plan: nat -> Attempt, own: seq<Step>): Db
    decreases |own|, 1
  {
    if own == [] then db else Next(Met(db, plan, own), own[|own| - 1])
  }

  // The tables as the last attempt finds them.
  ghost function Met(db: Db, plan: nat -> Attempt, own: seq<Step>): Db
    requires own != []
    decreases |own|, 0
  {
    var n := |own| - 1;
    Run(AfterAttempts(db, plan, own[..n]), plan(n).before)
  }

  // The steps that `AfterAttempts` makes, as one run.
  ghost function Interleaved(plan: nat -> Attempt, own: seq<Step>): seq<Step> {
    if own == [] then []
    else
      var n := |own| - 1;
      Interleaved(plan, own[..n]) + (plan(n).before + [own[n]])
  }

  // Attempts that asked for another one.
  ghost predicate Retried(plan: nat -> Attempt, own: seq<Step>) {
    forall i :: 0 <= i < |own| ==> own[i].now == plan(i).now && !own[i].commits && plan(i).fault == Transient
  }

  // Attempts that all asked for another one have led from `db` to `at`.
  ghost predicate Trying(db: Db, plan: nat -> Attempt, own: seq<Step>, at: Db) {
    Retried(plan, own) && at == AfterAttempts(db, plan, own)
  }

  // `step` is what the next attempt, `a`, makes.
  ghost predicate Makes(a: Attempt, step: Step) {
    step.now == a.now && (step.commits ==> TakesEffect(a.fault))
  }

  lemma TryAgain(db: Db, plan: nat -> Attempt, own: seq<Step>, at: Db, a: Attempt, step: Step)
    requires Trying(db, plan, own, at) && a == plan(|own|) && Makes(a, step) && a.fault == Transient
    ensures Trying(db, plan, own + [step], Next(Run(at, a.before), step))
    ensures AllAre(own, step.action) ==> AllAre(own + [step], step.action)
  {
    OneMoreAttempt(db, plan, own, step);
  }

  lemma LastTry(db: Db, plan: nat -> Attempt, own: seq<Step>, at: Db, a: Attempt, step: Step)
    requires Trying(db, plan, own, at) && |own| < 3 && a == plan(|own|) && Makes(a, step)
    requires a.fault != Transient || |own| == 2
    ensures Attempts(plan, own + [step]) && Met(db, plan, own + [step]) == Run(at, a.before)
    ensures AfterAttempts(db, plan, own + [step]) == Next(Run(at, a.before), step)
  {
    OneMoreAttempt(db, plan, own, step);
  }

  lemma OneMoreAttempt(db: Db, plan: nat -> Attempt, own: seq<Step>, step: Step)
    ensures Met(db, plan, own + [step]) == Run(AfterAttempts(db, plan, own), plan(|own|).before)
    ensures AfterAttempts(db, plan, own + [step]) == Next(Met(db, plan, own + [step]), step)
  {
    assert (own + [step])[..|own|] == own;
  }

  // A call is a run of its attempts and the others' steps.
  lemma {:induction false} AfterIsRun(db: Db, plan: nat -> Attempt, own: seq<Step>)
    ensures AfterAttempts(db, plan, own) == Run(db, Interleaved(plan, own))
  {
    if own != [] {
      var n := |own| - 1;
      var before := plan(n).before;
      AfterIsRun(db, plan, own[..n]);
      RunConcat(db, Interleaved(plan, own[..n]), before + [own[n]]);
      OwnStep(AfterAttempts(db, plan, own[..n]), before, own[n]);
    }
  }

  class Repository {
    var nodes: map<string, CreditNode>
    var credits: map<string, LedgerRow>
    var gates: map<string, IpGate>
    var txs: seq<Tx>

    constructor (nodes: map<string, CreditNode>)
      requires forall n :: n in nodes ==> nodes[n].balance == 0
      ensures EmptyLedger(View()) && this.nodes == nodes
    {
      this.nodes, credits, gates, txs := nodes, map[], map[], [];
    }

    ghost function View(): Db
      reads this
    {
      Db(nodes, credits, gates, txs)
    }

    method SetBalances(node: string, balance: int, freeAt: Option<int>)
      requires node in nodes
      modifies this`nodes, this`credits
      ensures View() == SetBalance(old(View()), node, balance, freeAt)
    {
      credits := credits[node := LedgerRow(balance, freeAt)];
      nodes := nodes[node := nodes[node].(balance := balance)];
    }

    method TakeFrom(node: string, amount: int, task: Option<string>, reason: string)
      requires node in nodes && node in credits
      modifies this
      ensures View() == Take(old(View()), node, amount, task, reason)
    {
      nodes := nodes[node := nodes[node].(balance := nodes[node].balance - amount)];
      credits := credits[node := credits[node].(balance := credits[node].balance - amount)];
      txs := txs + [DebitRow(node, amount, task, reason)];
    }

    method RecordCreditAwardOnce(node: string, amount: nat, task: string, nonce: string, now: int, fault: Fault)
      returns (r: AwardResult)
      modifies this
      ensures View() == Next(old(View()), Step(Award(node, amount, task, nonce), now, TakesEffect(fault)))
      ensures r == AwardAnswer(old(View()), node, amount, nonce, fault)
      ensures r.Awarded? ==> node in nodes && nodes[node].balance == r.balance
      ensures r.Awarded? ==> txs == old(txs) + [AwardRow(node, amount, task, nonce, now)]
    {
      if !TakesEffect(fault) {
        return AwardFailed(fault == Transient);
      }
      if node !in nodes {
        return NodeNotFound;
      }
      var nodeBalance := nodes[node].balance;
      var row := if node in credits then credits[node] else LedgerRow(nodeBalance, None);
      if !Agree(row.balance, nodeBalance) {
        return AwardFailed(false);
      }
      if NonceUsed(txs, nonce) {
        return NonceReplay;
      }
      txs := txs + [AwardRow(node, amount, task, nonce, now)];
      var newBalance := row.balance + amount;
      SetBalances(node, newBalance, row.freeAt);
      r := if fault == NoFault then Awarded(newBalance) else AwardFailed(false);
    }

    method DebitNodeOnce(
        node: string, amount: nat, task: string, reason: string, now: int, fault: Fault, stampMoves: bool)
      returns (r: DebitResult)
      modifies this
      ensures View() == Next(old(View()),
        Step(DebitNode(node, amount, task, reason), now, TakesEffect(fault) && (amount > 0 || stampMoves)))
      ensures r == DebitAnswer(old(View()), node, amount, fault, stampMoves)
      ensures r.Debited? ==> txs == old(txs) + [DebitRow(node, amount, Some(task), reason)]
    {
      if !TakesEffect(fault) {
        return DebitFailed(fault == Transient);
      }
      var updated := node in nodes && node in credits
        && nodes[node].balance + TOLERANCE >= amount && credits[node].balance + TOLERANCE >= amount
        && Agree(nodes[node].balance, credits[node].balance)
        && (amount > 0 || stampMoves);
      if !updated {
        return Insufficient;
      }
      TakeFrom(node, amount, Some(task), reason);
      r := if fault == NoFault then Debited(amount, 1) else DebitFailed(false);
    }

    // The earliest live expiry of a node's credits.
    method Horizon(node: string, now: int) returns (h: Option<int>)
      ensures IsHorizon(txs, node, now, h)
    {
      h := None;
      for i := 0 to |txs|
        invariant IsHorizon(txs[..i], node, now, h)
      {
        var t := txs[i];
        if TimedCredit(t, node) && t.expiresAt.value > now && (h.None? || t.expiresAt.value < h.value) {
          h := t.expiresAt;
        }
      }
      assert txs[..|txs|] == txs;
    }

    // The wallet query as the database answers it.
    method QueryWallet(owner: string, now: int) returns (cs: seq<Cand>)
      ensures WalletAnswer(View(), owner, now, cs)
    {
      cs := [];
      var rest := nodes.Keys;
      while rest != {}
        invariant rest <= nodes.Keys && Listed(View(), owner, now, cs, rest)
        decreases |rest|
      {
        var node :| node in rest;
        if nodes[node].operator == Some(owner) && !nodes[node].archived && nodes[node].balance > 0
          && Spendable(txs, node, now) {
          var h := Horizon(node, now);
          ListedGrows(View(), owner, now, cs, rest, Cand(node, nodes[node].balance, h));
          cs := cs + [Cand(node, nodes[node].balance, h)];
        } else {
          ListedSkips(View(), owner, now, cs, rest, node);
        }
        rest := rest - {node};
      }
      SortedAnswer(View(), owner, now, cs);
      cs := Sort(cs, CandLeq);
    }

    method DebitOperatorWalletOnce(owner: string, amount: nat, p: Purpose, now: int, fault: Fault)
      returns (r: DebitResult, ghost cs: seq<Cand>)
      modifies this
      ensures WalletAnswer(old(View()), owner, now, cs)
      ensures View() == Next(old(View()), Step(DebitWallet(owner, cs, amount, p), now, TakesEffect(fault)))
      ensures r == WalletDebitAnswer(old(View()), cs, amount, p, fault)
      ensures r == Insufficient <==> TakesEffect(fault) && Total(cs) + TOLERANCE < amount
      ensures r == DebitFailed(true) <==> fault == Transient
      ensures r.Debited? ==> fault == NoFault && r.spent == amount && Total(cs) + TOLERANCE >= amount
      ensures r.Debited? ==> r.count == |txs| - |old(txs)|
      ensures Accounted(old(View())) && fault == NoFault ==> !r.DebitFailed?
    {
      var candidates := QueryWallet(owner, now);
      cs := candidates;
      if !TakesEffect(fault) {
        return DebitFailed(fault == Transient), cs;
      }
      var available := 0;
      for i := 0 to |candidates|
        invariant available + TotalFrom(candidates, i) == Total(candidates)
      {
        available := available + candidates[i].balance;
      }
      if available + TOLERANCE < amount {
        return Insufficient, cs;
      }
      ghost var db := View();
      if Accounted(db) {
        AnswerIsPending(db, owner, now, cs);
        DrainKeepsAccounts(db, cs, amount, p);
      }
      var ok, left, count := Drain(candidates, amount, p);
      if !ok || left > TOLERANCE {
        return DebitFailed(false), cs;
      }
      r := if fault == NoFault then Debited(amount, count) else DebitFailed(false);
    }

    // One pass of the debit loop.
    method DrainCandidate(c: Cand, left: int, p: Purpose) returns (ok: bool)
      requires c.id in nodes
      modifies this
      ensures ok == DrainOne(old(View()), c, left, p).Some?
      ensures View() == if ok then DrainOne(old(View()), c, left, p).value else old(View())
      ensures nodes.Keys == old(nodes.Keys) && |txs| == |old(txs)| + if ok then 1 else 0
    {
      if c.id !in credits || !Agree(credits[c.id].balance, c.balance)
        || !Agree(nodes[c.id].balance, credits[c.id].balance) {
        return false;
      }
      TakeFrom(c.id, MinInt(left, c.balance), Some(p.task), WalletReason(p, c.id));
      ok := true;
    }

    // The debit transaction's writes; on an error everything done is rolled back.
    method Drain(candidates: seq<Cand>, amount: nat, p: Purpose) returns (ok: bool, left: int, count: nat)
      requires forall i :: 0 <= i < |candidates| ==> candidates[i].id in nodes && candidates[i].balance > 0
      requires Total(candidates) + TOLERANCE >= amount
      modifies this
      ensures ok == DrainFrom(old(View()), candidates, 0, amount, p).Some?
      ensures View() == if ok then DrainFrom(old(View()), candidates, 0, amount, p).value else old(View())
      ensures ok ==> count == |txs| - |old(txs)| && left <= TOLERANCE
    {
      var savedNodes, savedCredits, savedGates, savedTxs := nodes, credits, gates, txs;
      ok, left, count := DrainLoop(candidates, amount, p);
      if !ok {
        nodes, credits, gates, txs := savedNodes, savedCredits, savedGates, savedTxs;
      }
    }

    // The debit loop, which stops at the first error.
    method DrainLoop(candidates: seq<Cand>, amount: nat, p: Purpose) returns (ok: bool, left: int, count: nat)
      requires forall i :: 0 <= i < |candidates| ==> candidates[i].id in nodes && candidates[i].balance > 0
      requires Total(candidates) + TOLERANCE >= amount
      modifies this
      ensures ok == DrainFrom(old(View()), candidates, 0, amount, p).Some?
      ensures ok ==> View() == DrainFrom(old(View()), candidates, 0, amount, p).value
      ensures ok ==> count == |txs| - |old(txs)| && left <= TOLERANCE
    {
      ghost var goal := DrainFrom(View(), candidates, 0, amount, p);
      left, count, ok := amount, 0, true;
      var i := 0;
      while i < |candidates| && left > 0
        invariant DrainedTo(goal, View(), candidates, i, left, amount, p)
        invariant nodes.Keys == old(nodes.Keys) && count == |txs| - |old(txs)|
      {
        var c := candidates[i];
        DrainTurn(goal, View(), candidates, i, left, amount, p);
        ok := DrainCandidate(c, left, p);
        if !ok {
          return;
        }
        left, count, i := left - MinInt(left, c.balance), count + 1, i + 1;
      }
    }

    method ExpireIdleCreditOnce(node: string, expected: int, now: int, fault: Fault)
      returns (expired: Option<int>, retry: bool)
      modifies this
      ensures View() == Next(old(View()), Step(Expire(node, expected), now, TakesEffect(fault)))
      ensures expired.Some? ==> fault == NoFault && expired.value == expected
      ensures expired.Some? ==> txs == old(txs) + [DebitRow(node, expected, None, "ttl_expire")]
      ensures expired.Some? ==> node in nodes && old(nodes)[node].balance == expected && nodes[node].balance == 0
      ensures retry == (fault == Transient)
      ensures expired.Some? <==> fault == NoFault && Matched(old(View()), node) && old(nodes)[node].balance == expected
    {
      expired, retry := None, fault == Transient;
      if !TakesEffect(fault) {
        return;
      }
      if node !in nodes || node !in credits || nodes[node].balance != expected
        || !Agree(nodes[node].balance, credits[node].balance) {
        return;
      }
      SetBalances(node, 0, credits[node].freeAt);
      txs := txs + [DebitRow(node, expected, None, "ttl_expire")];
      expired := if fault == NoFault then Some(expected) else None;
    }

    // Both gate rows are materialised, checked and written in one transaction, so a
    // blocked or failed one leaves nothing behind.
    method MaybeAllocateFreeCredits(node: string, ip: string, now: int, fault: Fault) returns (granted: int)
      modifies this
      ensures View() == Next(old(View()), Step(Allocate(node, ip), now, TakesEffect(fault)))
      ensures granted == if fault == NoFault && MayAllocate(old(View()), node, ip, now) then FREE_AMOUNT else 0
    {
      var row := if node in credits then credits[node] else LedgerRow(0, None);
      var gate := if ip in gates then gates[ip] else IpGate(None, 0);
      if !TakesEffect(fault) || row.balance > 0 || Recent(row.freeAt, now) || Recent(gate.lastAt, now)
        || node !in nodes {
        return 0;
      }
      SetBalances(node, row.balance + FREE_AMOUNT, Some(now));
      txs := txs + [FreeRow(node, now)];
      gates := gates[ip := IpGate(Some(now), gate.count + 1)];
      granted := if fault == NoFault then FREE_AMOUNT else 0;
    }

    // ---- Between the attempts of one call, others commit ----

    method Commit(s: Step)
      modifies this
      ensures View() == Next(old(View()), s)
    {
      var fault := if s.commits then NoFault else Permanent;
      match s.action {
        case Award(node, amount, task, nonce) =>
          var _ := RecordCreditAwardOnce(node, amount, task, nonce, s.now, fault);
        case DebitNode(node, amount, task, reason) =>
          var _ := DebitNodeOnce(node, amount, task, reason, s.now, fault, true);
        case DebitWallet(owner, cs, amount, p) => CommitWallet(s);
        case Expire(node, expected) => var _, _ := ExpireIdleCreditOnce(node, expected, s.now, fault);
        case Allocate(node, ip) => var _ := MaybeAllocateFreeCredits(node, ip, s.now, fault);
        case Enroll(node, operator) =>
          if s.commits && node !in nodes {
            nodes := nodes[node := CreditNode(0, operator, false)];
          }
        case Reassign(node, operator, archived) =>
          if s.commits && node in nodes {
            nodes := nodes[node := nodes[node].(operator := operator, archived := archived)];
          }
      }
    }

    // Another session's wallet debit: it acts on the answer the database gives it now.
    method CommitWallet(s: Step)
      requires s.action.DebitWallet?
      modifies this
      ensures View() == Next(old(View()), s)
    {
      var a := s.action;
      var answer := QueryWallet(a.owner, s.now);
      if s.commits && answer == a.cands {
        var _, cs := DebitOperatorWalletOnce(a.owner, a.amount, a.purpose, s.now, NoFault);
        WalletAnswerIsUnique(old(View()), a.owner, s.now, cs, a.cands);
      } else if s.commits {
        if WalletAnswer(View(), a.owner, s.now, a.cands) {
          WalletAnswerIsUnique(View(), a.owner, s.now, answer, a.cands);
        }
      }
    }

    method OthersCommit(steps: seq<Step>)
      modifies this
      ensures View() == Run(old(View()), steps)
    {
      ghost var db := View();
      assert steps[..0] == [];
      for i := 0 to |steps|
        invariant View() == Run(db, steps[..i])
      {
        assert steps[..i + 1][..i] == steps[..i];
        Commit(steps[i]);
      }
      assert steps[..|steps|] == steps;
    }

    // ---- Calls: up to three attempts ----

    method AwardAttempt(node: string, amount: nat, task: string, nonce: string, a: Attempt) returns (r: AwardResult)
      modifies this
      ensures View() == Next(Run(old(View()), a.before),
        Step(Award(node, amount, task, nonce), a.now, TakesEffect(a.fault)))
      ensures r == AwardAnswer(Run(old(View()), a.before), node, amount, nonce, a.fault)
      ensures r.Awarded? || r == NonceReplay ==> NonceUsed(txs, nonce)
      ensures r.Awarded? ==> node in nodes && nodes[node].balance == r.balance
    {
      OthersCommit(a.before);
      r := RecordCreditAwardOnce(node, amount, task, nonce, a.now, a.fault);
      if r.Awarded? {
        assert txs[|txs| - 1].nonce == Some(nonce);
      }
    }

    // Up to three attempts, of which only the last can have changed anything; the answer is
    // the last one's, and every answer but a failure settles the nonce.
    method RecordCreditAward(node: string, amount: nat, task: string, nonce: string, plan: nat -> Attempt)
      returns (r: AwardResult, ghost own: seq<Step>)
      modifies this
      ensures View() == AfterAttempts(old(View()), plan, own)
        && AwardsOf(old(View()), plan, own, r, node, amount, task, nonce)
      ensures r.Awarded? || r == NonceReplay ==> NonceUsed(txs, nonce)
      ensures r.Awarded? ==> node in nodes && nodes[node].balance == r.balance
    {
      own, r := [], AwardFailed(false);
      ghost var db := View();
      var attempt := 0;
      while true
        invariant |own| == attempt < 3 && Trying(db, plan, own, View()) && AllAre(own, Award(node, amount, task, nonce))
        decreases 3 - attempt
      {
        var a := plan(attempt);
        ghost var at := View();
        ghost var step := Step(Award(node, amount, task, nonce), a.now, TakesEffect(a.fault));
        r := AwardAttempt(node, amount, task, nonce, a);
        if r != AwardFailed(true) || attempt == 2 {
          AwardSettled(db, plan, own, at, a, step, r);
          own, r := own + [step], FinalAward(r);
          return;
        }
        TryAgain(db, plan, own, at, a, step);
        own, attempt := own + [step], attempt + 1;
      }
    }

    method DebitAttempt(q: Request, a: Attempt) returns (r: DebitResult, ghost step: Step)
      modifies this
      ensures View() == Next(Run(old(View()), a.before), step)
      ensures Answers(Run(old(View()), a.before), step, r, q, a) && Makes(a, step)
      ensures r == DebitFailed(true) <==> a.fault == Transient
    {
      OthersCommit(a.before);
      var p := Purpose(q.consumer, q.task, q.reason);
      if q.owner.Some? {
        ghost var cs;
        r, cs := DebitOperatorWalletOnce(q.owner.value, q.amount, p, a.now, a.fault);
        step := Step(DebitWallet(q.owner.value, cs, q.amount, p), a.now, TakesEffect(a.fault));
      } else {
        r := DebitNodeOnce(q.consumer, q.amount, q.task, q.reason, a.now, a.fault, a.stampMoves);
        step := Step(DebitNode(q.consumer, q.amount, q.task, q.reason), a.now,
                     TakesEffect(a.fault) && (q.amount > 0 || a.stampMoves));
      }
    }

    // The scope is read once, outside the transactions; each attempt acts on the wallet
    // (or the node) as it finds it.
    method DebitForConsumer(
        consumer: string, amount: nat, task: string, reason: string, lookupFails: bool, plan: nat -> Attempt)
      returns (r: DebitResult, ghost own: seq<Step>)
      modifies this
      ensures View() == AfterAttempts(old(View()), plan, own)
      ensures lookupFails ==> own == [] && r == DebitFailed(false)
      ensures !lookupFails ==> Attempts(plan, own)
      ensures var q := Request(consumer, OwnerOf(old(View()), consumer), amount, task, reason);
              !lookupFails ==> DebitsOf(old(View()), plan, own, r, q)
    {
      own, r := [], DebitFailed(false);
      if lookupFails {
        return;
      }
      var owner := if consumer in nodes && nodes[consumer].operator != Some("") then nodes[consumer].operator else None;
      var q := Request(consumer, owner, amount, task, reason);
      r, own := DebitAttempts(q, plan);
    }

    method DebitAttempts(q: Request, plan: nat -> Attempt) returns (r: DebitResult, ghost own: seq<Step>)
      modifies this
      ensures View() == AfterAttempts(old(View()), plan, own) && Attempts(plan, own)
        && DebitsOf(old(View()), plan, own, r, q)
    {
      own := [];
      ghost var db := View();
      var attempt := 0;
      while true
        invariant |own| == attempt < 3 && Trying(db, plan, own, View())
        decreases 3 - attempt
      {
        var a := plan(attempt);
        ghost var at := View();
        ghost var step;
        r, step := DebitAttempt(q, a);
        if r != DebitFailed(true) || attempt == 2 {
          DebitSettled(db, plan, own, at, a, step, r, q);
          own, r := own + [step], FinalDebit(r);
          return;
        }
        TryAgain(db, plan, own, at, a, step);
        own, attempt := own + [step], attempt + 1;
      }
    }

    // ---- The expiry sweep: read outside, swap inside ----

    // The newest expiry among a node's credits.
    method NewestExpiry(node: string) returns (e: Option<int>)
      ensures e.None? ==> forall i :: 0 <= i < |txs| ==> !TimedCredit(txs[i], node)
      ensures e.Some? ==> exists i :: 0 <= i < |txs| && TimedCredit(txs[i], node) && txs[i].expiresAt == e
      ensures e.Some? ==> forall i :: 0 <= i < |txs| && TimedCredit(txs[i], node) ==> txs[i].expiresAt.value <= e.value
    {
      e := None;
      for i := 0 to |txs|
        invariant e.None? ==> forall j :: 0 <= j < i ==> !TimedCredit(txs[j], node)
        invariant e.Some? ==> exists j :: 0 <= j < i && TimedCredit(txs[j], node) && txs[j].expiresAt == e
        invariant e.Some? ==> forall j :: 0 <= j < i && TimedCredit(txs[j], node) ==> txs[j].expiresAt.value <= e.value
      {
        if TimedCredit(txs[i], node) && (e.None? || txs[i].expiresAt.value > e.value) {
          e := txs[i].expiresAt;
        }
      }
    }

    // The nodes with a balance whose newest credit has expired, in no particular order.
    method IdleCandidates(now: int) returns (idle: seq<(string, int)>)
      ensures Distinct(idle) && forall node, balance :: IdleAt(View(), now, node, balance) <==> (node, balance) in idle
    {
      idle := [];
      var rest := nodes.Keys;
      while rest != {}
        invariant rest <= nodes.Keys && Distinct(idle)
        invariant forall node, balance ::
          (node, balance) in idle <==> IdleAt(View(), now, node, balance) && node !in rest
        decreases |rest|
      {
        var node :| node in rest;
        rest := rest - {node};
        var newest := NewestExpiry(node);
        if newest.Some? && newest.value < now && nodes[node].balance > 0 {
          AppendNew(idle, (node, nodes[node].balance));
          idle := idle + [(node, nodes[node].balance)];
        }
      }
    }

    method SwapAttempt(node: string, expected: int, a: Attempt) returns (expired: Option<int>, retry: bool)
      modifies this
      ensures View() == Next(Run(old(View()), a.before), Step(Expire(node, expected), a.now, TakesEffect(a.fault)))
      ensures expired == if SwapGoes(Run(old(View()), a.before), a.fault, node, expected) then Some(expected) else None
      ensures expired.Some? ==> DebitRow(node, expected, None, "ttl_expire") in txs
      ensures retry == (a.fault == Transient)
    {
      OthersCommit(a.before);
      expired, retry := ExpireIdleCreditOnce(node, expected, a.now, a.fault);
      if expired.Some? {
        assert txs[|txs| - 1] == DebitRow(node, expected, None, "ttl_expire");
      }
    }

    // One candidate: up to three swaps, each after other sessions have had their turn.
    method SweepNode(node: string, expected: int, plan: nat -> Attempt)
      returns (expired: Option<int>, ghost own: seq<Step>)
      modifies this
      ensures Sweeps(plan, own, node, expected) && View() == AfterAttempts(old(View()), plan, own)
      ensures expired == if SwapSucceeds(old(View()), plan, own, node, expected) then Some(expected) else None
      ensures expired.Some? ==> DebitRow(node, expected, None, "ttl_expire") in txs
    {
      own, expired := [], None;
      ghost var db := View();
      var attempt := 0;
      while true
        invariant |own| == attempt < 3 && Trying(db, plan, own, View()) && AllAre(own, Expire(node, expected))
        decreases 3 - attempt
      {
        var a := plan(attempt);
        ghost var at := View();
        ghost var step := Step(Expire(node, expected), a.now, TakesEffect(a.fault));
        var retry;
        expired, retry := SwapAttempt(node, expected, a);
        if !retry || attempt == 2 {
          SwapSettled(db, plan, own, at, a, step);
          own := own + [step];
          return;
        }
        TryAgain(db, plan, own, at, a, step);
        own, attempt := own + [step], attempt + 1;
      }
    }

    // The sweep tries every balance that is idle when the candidates are read, and its
    // totals are those of the swaps that found it unchanged.
    method ExpireIdleNodeCredits(now: int, readFails: bool, plan: (nat, nat) -> Attempt)
      returns (expiredNodes: nat, expiredCredits: int, ghost tried: seq<(string, int)>, ghost owns: seq<seq<Step>>)
      modifies this
      ensures readFails ==> tried == []
      ensures !readFails ==> Distinct(tried)
      ensures !readFails
        ==> forall node, balance :: IdleAt(old(View()), now, node, balance) <==> (node, balance) in tried
      ensures SweptSoFar(old(View()), View(), plan, owns, tried, expiredNodes, expiredCredits)
    {
      var candidates: seq<(string, int)> := [];
      if !readFails {
        candidates := IdleCandidates(now);
      }
      ghost var db := View();
      expiredNodes, expiredCredits, tried, owns := 0, 0, candidates, [];
      assert candidates[..0] == [];
      for i := 0 to |candidates|
        invariant SweptSoFar(db, View(), plan, owns, candidates[..i], expiredNodes, expiredCredits)
      {
        var (node, balance) := candidates[i];
        ghost var at := View();
        var expired;
        ghost var own;
        expired, own := SweepNode(node, balance, PlanOf(plan, i));
        OneMoreSwept(db, at, View(), plan, owns, own, candidates, i, expiredNodes, expiredCredits);
        owns := owns + [own];
        if expired.Some? {
          expiredNodes, expiredCredits := expiredNodes + 1, expiredCredits + expired.value;
        }
      }
      assert candidates[..|candidates|] == candidates;
    }
  }

  // What is left to do from here leads to `goal`.
  ghost predicate DrainedTo(goal: Option<Db>, db: Db, cs: seq<Cand>, i: nat, left: int, amount: nat, p: Purpose) {
    && i <= |cs| && goal == DrainFrom(db, cs, i, left, p)
    && (left > 0 ==> left + Total(cs) == amount + TotalFrom(cs, i))
  }

  lemma DrainTurn(goal: Option<Db>, db: Db, cs: seq<Cand>, i: nat, left: int, amount: nat, p: Purpose)
    requires DrainedTo(goal, db, cs, i, left, amount, p) && i < |cs| && left > 0
    ensures var one := DrainOne(db, cs[i], left, p);
            if one.None? then goal.None?
            else DrainedTo(goal, one.value, cs, i + 1, left - MinInt(left, cs[i].balance), amount, p)
  {
  }

  // `own` are the swaps tried for one candidate.
  ghost predicate Sweeps(plan: nat -> Attempt, own: seq<Step>, node: string, expected: int) {
    && Attempts(plan, own) && AllAre(own, Expire(node, expected))
    && forall i :: 0 <= i < |own| ==> own[i].commits == TakesEffect(plan(i).fault)
  }

  ghost predicate SwapGoes(db: Db, fault: Fault, node: string, expected: int) {
    fault == NoFault && Matched(db, node) && db.nodes[node].balance == expected
  }

  lemma SwapSettled(db: Db, plan: nat -> Attempt, own: seq<Step>, at: Db, a: Attempt, step: Step)
    requires Trying(db, plan, own, at) && |own| < 3 && a == plan(|own|) && (a.fault != Transient || |own| == 2)
    requires step.action.Expire? && AllAre(own, step.action) && step.now == a.now
      && step.commits == TakesEffect(a.fault)
    ensures var node, expected, all := step.action.node, step.action.expected, own + [step];
            && Sweeps(plan, all, node, expected) && AfterAttempts(db, plan, all) == Next(Run(at, a.before), step)
            && SwapSucceeds(db, plan, all, node, expected) == SwapGoes(Run(at, a.before), a.fault, node, expected)
  {
    LastTry(db, plan, own, at, a, step);
  }

  // The last swap went through and found the balance that was read.
  ghost predicate SwapSucceeds(db: Db, plan: nat -> Attempt, own: seq<Step>, node: string, expected: int)
    requires own != []
  {
    SwapGoes(Met(db, plan, own), plan(|own| - 1).fault, node, expected)
  }

  function PlanOf(plan: (nat, nat) -> Attempt, i: nat): nat -> Attempt {
    (k: nat) => plan(i, k)
  }

  ghost predicate SweepsAll(plan: (nat, nat) -> Attempt, owns: seq<seq<Step>>, tried: seq<(string, int)>) {
    |owns| == |tried| && forall i :: 0 <= i < |tried| ==> Sweeps(PlanOf(plan, i), owns[i], tried[i].0, tried[i].1)
  }

  ghost function AfterSweeps(db: Db, plan: (nat, nat) -> Attempt, owns: seq<seq<Step>>): Db {
    if owns == [] then db
    else
      var n := |owns| - 1;
      AfterAttempts(AfterSweeps(db, plan, owns[..n]), PlanOf(plan, n), owns[n])
  }

  // The candidates whose swap succeeded.
  ghost function Swept(db: Db, plan: (nat, nat) -> Attempt, owns: seq<seq<Step>>, tried: seq<(string, int)>)
    : seq<(string, int)>
    requires SweepsAll(plan, owns, tried)
  {
    if tried == [] then []
    else
      var n := |tried| - 1;
      var before := AfterSweeps(db, plan, owns[..n]);
      Swept(db, plan, owns[..n], tried[..n])
      + if SwapSucceeds(before, PlanOf(plan, n), owns[n], tried[n].0, tried[n].1) then [tried[n]] else []
  }

  ghost predicate AllExpired(txs: seq<Tx>, swept: seq<(string, int)>) {
    forall i :: 0 <= i < |swept| ==> DebitRow(swept[i].0, swept[i].1, None, "ttl_expire") in txs
  }

  // Sweeping the balances in `tried` has led from `db` to `at`; the totals are those of the
  // swaps that succeeded, each of which has left its row.
  ghost predicate SweptSoFar(
      db: Db, at: Db, plan: (nat, nat) -> Attempt, owns: seq<seq<Step>>, tried: seq<(string, int)>,
      nodes: nat, credits: int)
  {
    && SweepsAll(plan, owns, tried) && at == AfterSweeps(db, plan, owns)
    && Totals(at.txs, Swept(db, plan, owns, tried), nodes, credits)
  }

  ghost predicate Totals(txs: seq<Tx>, swept: seq<(string, int)>, nodes: nat, credits: int) {
    nodes == |swept| && credits == SumOf(swept) && AllExpired(txs, swept)
  }

  lemma TotalsGrow(
      txs: seq<Tx>, txs': seq<Tx>, swept: seq<(string, int)>, x: (string, int), one: bool,
      nodes: nat, credits: int)
    requires Totals(txs, swept, nodes, credits) && forall t :: t in txs ==> t in txs'
    requires one ==> DebitRow(x.0, x.1, None, "ttl_expire") in txs'
    ensures var nodes', credits' := if one then nodes + 1 else nodes, if one then credits + x.1 else credits;
            Totals(txs', swept + if one then [x] else [], nodes', credits')
  {
    if one {
      SumGrows(swept, x);
    } else {
      assert swept + [] == swept;
    }
  }

  lemma OneMoreSwept(
      db: Db, at: Db, at': Db, plan: (nat, nat) -> Attempt, owns: seq<seq<Step>>, own: seq<Step>,
      tried: seq<(string, int)>, i: nat, nodes: nat, credits: int)
    requires i < |tried| && SweptSoFar(db, at, plan, owns, tried[..i], nodes, credits)
    requires Sweeps(PlanOf(plan, i), own, tried[i].0, tried[i].1) && at' == AfterAttempts(at, PlanOf(plan, i), own)
    requires SwapSucceeds(at, PlanOf(plan, i), own, tried[i].0, tried[i].1)
      ==> DebitRow(tried[i].0, tried[i].1, None, "ttl_expire") in at'.txs
    ensures var one := SwapSucceeds(at, PlanOf(plan, i), own, tried[i].0, tried[i].1);
            SweptSoFar(db, at', plan, owns + [own], tried[..i + 1],
                       if one then nodes + 1 else nodes, if one then credits + tried[i].1 else credits)
  {
    OneMoreSweep(db, plan, owns, own, tried, i);
    AfterAppends(at, PlanOf(plan, i), own);
    var one := SwapSucceeds(at, PlanOf(plan, i), own, tried[i].0, tried[i].1);
    TotalsGrow(at.txs, at'.txs, Swept(db, plan, owns, tried[..i]), tried[i], one, nodes, credits);
  }

  lemma OneMoreSweep(
      db: Db, plan: (nat, nat) -> Attempt, owns: seq<seq<Step>>, own: seq<Step>, tried: seq<(string, int)>, i: nat)
    requires i < |tried| && SweepsAll(plan, owns, tried[..i]) && Sweeps(PlanOf(plan, i), own, tried[i].0, tried[i].1)
    ensures SweepsAll(plan, owns + [own], tried[..i + 1])
    ensures AfterSweeps(db, plan, owns + [own]) == AfterAttempts(AfterSweeps(db, plan, owns), PlanOf(plan, i), own)
    ensures Swept(db, plan, owns + [own], tried[..i + 1]) == Swept(db, plan, owns, tried[..i])
              + if SwapSucceeds(AfterSweeps(db, plan, owns), PlanOf(plan, i), own, tried[i].0, tried[i].1)
                then [tried[i]] else []
  {
    assert (owns + [own])[..i] == owns && tried[..i + 1][..i] == tried[..i];
  }

  lemma AfterAppends(db: Db, plan: nat -> Attempt, own: seq<Step>)
    ensures db.txs <= AfterAttempts(db, plan, own).txs
    ensures forall t :: t in db.txs ==> t in AfterAttempts(db, plan, own).txs
  {
    AfterIsRun(db, plan, own);
    RunAppends(db, Interleaved(plan, own));
  }

  lemma SumGrows(swept: seq<(string, int)>, x: (string, int))
    ensures SumOf(swept + [x]) == SumOf(swept) + x.1
  {
    assert (swept + [x])[..|swept|] == swept;
  }

  // The sweep as one run.
  lemma {:induction false} SweepIsRun(db: Db, plan: (nat, nat) -> Attempt, owns: seq<seq<Step>>)
    returns (steps: seq<Step>)
    ensures AfterSweeps(db, plan, owns) == Run(db, steps)
  {
    if owns == [] {
      steps := [];
    } else {
      var n := |owns| - 1;
      var first := SweepIsRun(db, plan, owns[..n]);
      steps := first + Interleaved(PlanOf(plan, n), owns[n]);
      AfterIsRun(Run(db, first), PlanOf(plan, n), owns[n]);
      RunConcat(db, first, Interleaved(PlanOf(plan, n), owns[n]));
    }
  }

  // A balance the idle rule would expire: positive, and every timed credit has run out.
  ghost predicate IdleAt(db: Db, now: int, node: string, balance: int) {
    && node in db.nodes && db.nodes[node].balance == balance > 0
    && (exists i :: 0 <= i < |db.txs| && TimedCredit(db.txs[i], node))
    && (forall i :: 0 <= i < |db.txs| && TimedCredit(db.txs[i], node) ==> db.txs[i].expiresAt.value < now)
  }

  ghost function SumOf(swept: seq<(string, int)>): int {
    if swept == [] then 0 else SumOf(swept[..|swept| - 1]) + swept[|swept| - 1].1
  }

  // The operator whose wallet pays for a consumer, if any.
  ghost function OwnerOf(db: Db, consumer: string): Option<string> {
    if consumer in db.nodes && db.nodes[consumer].operator != Some("") then db.nodes[consumer].operator else None
  }

  // `step` debits the wallet or the node as the tables then are, and `r` is its answer.
  ghost predicate Answers(db: Db, step: Step, r: DebitResult, q: Request, a: Attempt) {
    if q.owner.None? then NodeAnswers(db, step, r, q, a) else WalletAnswers(db, step, r, q, a)
  }

  ghost predicate NodeAnswers(db: Db, step: Step, r: DebitResult, q: Request, a: Attempt) {
    && step.action == DebitNode(q.consumer, q.amount, q.task, q.reason)
    && step.now == a.now && step.commits == (TakesEffect(a.fault) && (q.amount > 0 || a.stampMoves))
    && r == DebitAnswer(db, q.consumer, q.amount, a.fault, a.stampMoves)
  }

  ghost predicate WalletAnswers(db: Db, step: Step, r: DebitResult, q: Request, a: Attempt)
    requires q.owner.Some?
  {
    && step.action.DebitWallet?
    && var cs := step.action.cands;
       && step.action == DebitWallet(q.owner.value, cs, q.amount, Purpose(q.consumer, q.task, q.reason))
       && step.now == a.now && step.commits == TakesEffect(a.fault) && WalletAnswer(db, q.owner.value, a.now, cs)
       && (r == Insufficient <==> TakesEffect(a.fault) && Total(cs) + TOLERANCE < q.amount)
       && (r == DebitFailed(true) <==> a.fault == Transient)
       && (r.Debited? ==> a.fault == NoFault && r.spent == q.amount)
       && (r.Debited? ==> r.count == |Next(db, step).txs| - |db.txs|)
       && (Accounted(db) && a.fault == NoFault ==> !r.DebitFailed?)
  }

  // `r` is the last attempt's answer, or a failure when that asked for yet another attempt.
  ghost predicate DebitsOf(db: Db, plan: nat -> Attempt, own: seq<Step>, r: DebitResult, q: Request) {
    && own != []
    && var a := plan(|own| - 1);
       var last := if a.fault == Transient then DebitFailed(true) else r;
       r == FinalDebit(last) && Answers(Met(db, plan, own), own[|own| - 1], last, q, a)
  }

  lemma DebitSettled(
      db: Db, plan: nat -> Attempt, own: seq<Step>, at: Db, a: Attempt, step: Step, r: DebitResult, q: Request)
    requires Trying(db, plan, own, at) && |own| < 3 && a == plan(|own|) && Makes(a, step)
    requires Answers(Run(at, a.before), step, r, q, a) && (r == DebitFailed(true) <==> a.fault == Transient)
    requires a.fault != Transient || |own| == 2
    ensures Attempts(plan, own + [step]) && DebitsOf(db, plan, own + [step], FinalDebit(r), q)
    ensures AfterAttempts(db, plan, own + [step]) == Next(Run(at, a.before), step)
  {
    LastTry(db, plan, own, at, a, step);
  }

  ghost predicate AllAre(own: seq<Step>, a: Action) {
    forall i :: 0 <= i < |own| ==> own[i].action == a
  }

  // `own` are the attempts at an award and `r` is what the last one answered.
  ghost predicate AwardsOf(
      db: Db, plan: nat -> Attempt, own: seq<Step>, r: AwardResult, node: string, amount: nat, task: string,
      nonce: string) {
    && Attempts(plan, own) && AllAre(own, Award(node, amount, task, nonce))
    && (forall i :: 0 <= i < |own| ==> own[i].commits == TakesEffect(plan(i).fault))
    && r == FinalAward(AwardAnswer(Met(db, plan, own), node, amount, nonce, plan(|own| - 1).fault))
  }

  lemma AwardSettled(db: Db, plan: nat -> Attempt, own: seq<Step>, at: Db, a: Attempt, step: Step, r: AwardResult)
    requires Trying(db, plan, own, at) && |own| < 3 && a == plan(|own|) && (a.fault != Transient || |own| == 2)
    requires step.action.Award? && AllAre(own, step.action) && step.now == a.now && step.commits == TakesEffect(a.fault)
    requires r == AwardAnswer(Run(at, a.before), step.action.node, step.action.amount, step.action.nonce, a.fault)
    ensures var award, all := step.action, own + [step];
            && AwardsOf(db, plan, all, FinalAward(r), award.node, award.amount, award.task, award.nonce)
            && AfterAttempts(db, plan, all) == Next(Run(at, a.before), step)
  {
    LastTry(db, plan, own, at, a, step);
  }

  lemma OwnStep(db: Db, trace: seq<Step>, step: Step)
    ensures Run(db, trace + [step]) == Next(Run(db, trace), step)
  {
    assert (trace + [step])[..|trace|] == trace;
  }

  // `cs` are the wallet's rows among the nodes outside `rest`, each once.
  ghost predicate Listed(db: Db, owner: string, now: int, cs: seq<Cand>, rest: set<string>) {
    && (forall i, j :: 0 <= i < j < |cs| ==> cs[i].id != cs[j].id)
    && (forall i :: 0 <= i < |cs| ==> cs[i].id !in rest && WalletRow(db, owner, now, cs[i]))
    && (forall node ::
          Eligible(db, owner, now, node) && node !in rest ==> exists i :: 0 <= i < |cs| && cs[i].id == node)
  }

  lemma ListedSkips(db: Db, owner: string, now: int, cs: seq<Cand>, rest: set<string>, node: string)
    requires Listed(db, owner, now, cs, rest) && !Eligible(db, owner, now, node)
    ensures Listed(db, owner, now, cs, rest - {node})
  {
  }

  lemma ListedGrows(db: Db, owner: string, now: int, cs: seq<Cand>, rest: set<string>, c: Cand)
    requires Listed(db, owner, now, cs, rest) && c.id in rest && WalletRow(db, owner, now, c)
    ensures Listed(db, owner, now, cs + [c], rest - {c.id})
  {
    var all := cs + [c];
    assert all[|cs|] == c && forall i :: 0 <= i < |cs| ==> all[i] == cs[i];
    forall node | Eligible(db, owner, now, node) && node !in rest - {c.id}
      ensures exists i :: 0 <= i < |all| && all[i].id == node
    {
      if node != c.id {
        var i :| 0 <= i < |cs| && cs[i].id == node;
        assert all[i].id == node;
      }
    }
  }

  lemma SortedAnswer(db: Db, owner: string, now: int, cs: seq<Cand>)
    requires forall i, j :: 0 <= i < j < |cs| ==> cs[i].id != cs[j].id
    requires forall i :: 0 <= i < |cs| ==> WalletRow(db, owner, now, cs[i])
    requires forall node :: Eligible(db, owner, now, node) ==> exists i :: 0 <= i < |cs| && cs[i].id == node
    ensures WalletAnswer(db, owner, now, Sort(cs, CandLeq))
  {
    var s := Sort(cs, CandLeq);
    CandOrder();
    SortSorts(cs, CandLeq);
    SortPermutes(cs, CandLeq);
    DistinctPermuted(cs, s);
    SameMembers(cs, s);
    DistinctIds(cs, s);
    CoversAll(db, owner, now, cs, s);
    RowsHold(db, owner, now, cs, s);
  }

  lemma RowsHold(db: Db, owner: string, now: int, cs: seq<Cand>, s: seq<Cand>)
    requires forall i :: 0 <= i < |cs| ==> WalletRow(db, owner, now, cs[i])
    requires forall c :: c in s ==> c in cs
    ensures forall i :: 0 <= i < |s| ==> WalletRow(db, owner, now, s[i])
  {
    forall i | 0 <= i < |s|
      ensures WalletRow(db, owner, now, s[i])
    {
      assert s[i] in cs;
    }
  }

  lemma DistinctIds(cs: seq<Cand>, s: seq<Cand>)
    requires forall i, j :: 0 <= i < j < |cs| ==> cs[i].id != cs[j].id
    requires Distinct(s) && forall c :: c in s ==> c in cs
    ensures forall i, j :: 0 <= i < j < |s| ==> s[i].id != s[j].id
  {
    forall i, j | 0 <= i < j < |s|
      ensures s[i].id != s[j].id
    {
      assert s[i] in cs && s[j] in cs && s[i] != s[j];
    }
  }

  lemma CoversAll(db: Db, owner: string, now: int, cs: seq<Cand>, s: seq<Cand>)
    requires forall node :: Eligible(db, owner, now, node) ==> exists i :: 0 <= i < |cs| && cs[i].id == node
    requires forall c :: c in cs ==> c in s
    ensures forall node :: Eligible(db, owner, now, node) ==> exists i :: 0 <= i < |s| && s[i].id == node
  {
    forall node | Eligible(db, owner, now, node)
      ensures exists i :: 0 <= i < |s| && s[i].id == node
    {
      var k :| 0 <= k < |cs| && cs[k].id == node;
      assert cs[k] in s;
    }
  }
}
