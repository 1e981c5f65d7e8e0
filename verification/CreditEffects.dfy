// What each credit transaction does, told from the rows of the tables alone.
module CreditEffects {
  import opened Text
  import opened Sorting
  import opened TextSorting
  import opened Database
  import opened CreditLedger
  import opened CreditAccounting
  import opened CreditRepository

  // ---- Awards, debits, expiry, grants ----

  // Nothing but the two balances of one node, its grant stamp and one new row.
  ghost predicate Moves(db: Db, db': Db, node: string, balance: int, freeAt: Option<int>, row: Tx) {
    && node in db.nodes && db'.nodes == db.nodes[node := db.nodes[node].(balance := balance)]
    && db'.credits == db.credits[node := LedgerRow(balance, freeAt)]
    && db'.txs == db.txs + [row]
  }

  // A known node, a ledger row that is missing or within a unit, and a nonce not used yet.
  ghost predicate Awardable(db: Db, node: string, nonce: string) {
    && node in db.nodes
    && (node in db.credits ==> -1 <= db.credits[node].balance - db.nodes[node].balance <= 1)
    && (forall t :: t in db.txs ==> t.nonce != Some(nonce))
  }

  // An award goes through exactly then, adds to what the ledger holds, expires in ninety
  // days and leaves the grants alone.
  lemma AwardEffect(db: Db, node: string, amount: nat, task: string, nonce: string, now: int)
    ensures var db' := Next(db, Step(Award(node, amount, task, nonce), now, true));
            var held := if node in db.credits then db.credits[node]
                        else if node in db.nodes then LedgerRow(db.nodes[node].balance, None) else LedgerRow(0, None);
            var row := Tx(node, amount, Credit, Some(task), Some(nonce), "cip_award", Some(now + 90 * 86400));
            if Awardable(db, node, nonce)
            then Moves(db, db', node, held.balance + amount, held.freeAt, row) && db'.gates == db.gates
            else db' == db
  {
    NonceUsedMeans(db.txs, nonce);
  }

  lemma NonceUsedMeans(txs: seq<Tx>, nonce: string)
    ensures NonceUsed(txs, nonce) <==> exists t :: t in txs && t.nonce == Some(nonce)
  {
    if t :| t in txs && t.nonce == Some(nonce) {
      var i :| 0 <= i < |txs| && txs[i] == t;
      assert NonceUsed(txs, nonce);
    }
  }

  // What an award answers when nothing fails: an unknown node, then a disagreement of more
  // than a unit, then a nonce seen before.
  lemma AwardAnswers(db: Db, node: string, amount: nat, nonce: string)
    ensures var r := AwardAnswer(db, node, amount, nonce, NoFault);
            && (r.Awarded? <==> Awardable(db, node, nonce)) && (r == NodeNotFound <==> node !in db.nodes)
            && (r == NonceReplay ==> exists t :: t in db.txs && t.nonce == Some(nonce))
            && (r.AwardFailed? <==>
                  && node in db.nodes && node in db.credits
                  && !(-1 <= db.credits[node].balance - db.nodes[node].balance <= 1))
  {
    NonceUsedMeans(db.txs, nonce);
  }

  // Both balances cover the amount within a unit and agree within one.
  ghost predicate Covers(db: Db, node: string, amount: nat) {
    && node in db.nodes && node in db.credits
    && db.nodes[node].balance >= amount - 1 && db.credits[node].balance >= amount - 1
    && -1 <= db.nodes[node].balance - db.credits[node].balance <= 1
  }

  lemma DebitEffect(db: Db, node: string, amount: nat, task: string, reason: string, now: int)
    ensures var db' := Next(db, Step(DebitNode(node, amount, task, reason), now, true));
            if Covers(db, node, amount) then
              && db'.nodes == db.nodes[node := db.nodes[node].(balance := db.nodes[node].balance - amount)]
              && db'.credits == db.credits[node := db.credits[node].(balance := db.credits[node].balance - amount)]
              && db'.txs == db.txs + [Tx(node, amount, Debit, Some(task), None, reason, None)]
              && db'.gates == db.gates
            else db' == db
    ensures var r := DebitAnswer(db, node, amount, NoFault, false);
            amount > 0 ==> r == if Covers(db, node, amount) then Debited(amount, 1) else Insufficient
  {
  }

  // The balance is still the one that was read, on both sides within a unit.
  lemma ExpiryEffect(db: Db, node: string, expected: int, now: int)
    ensures var db' := Next(db, Step(Expire(node, expected), now, true));
            if node in db.nodes && node in db.credits && db.nodes[node].balance == expected
               && -1 <= expected - db.credits[node].balance <= 1
            then
              var row := Tx(node, expected, Debit, None, None, "ttl_expire", None);
              Moves(db, db', node, 0, db.credits[node].freeAt, row) && db'.gates == db.gates
            else db' == db
  {
  }

  // Nothing left on the ledger, and neither node nor address served in the last six hours.
  ghost predicate Grantable(db: Db, node: string, ip: string, now: int) {
    && node in db.nodes
    && (node in db.credits ==> db.credits[node].balance <= 0)
    && (node in db.credits && db.credits[node].freeAt.Some? ==> now - db.credits[node].freeAt.value >= 6 * 3600)
    && (ip in db.gates && db.gates[ip].lastAt.Some? ==> now - db.gates[ip].lastAt.value >= 6 * 3600)
  }

  // A grant is a hundred credits that expire in ninety days, and stamps both gates.
  lemma GrantEffect(db: Db, node: string, ip: string, now: int)
    ensures var db' := Next(db, Step(Allocate(node, ip), now, true));
            var held := if node in db.credits then db.credits[node].balance else 0;
            var row := Tx(node, 100 * 10_000, Credit, None, None, "free_allocation", Some(now + 90 * 86400));
            if Grantable(db, node, ip, now) then
              && Moves(db, db', node, held + 100 * 10_000, Some(now), row)
              && db'.gates == db.gates[ip := IpGate(Some(now), if ip in db.gates then db.gates[ip].count + 1 else 1)]
            else db' == db
    ensures MayAllocate(db, node, ip, now) <==> Grantable(db, node, ip, now)
  {
  }

  // ---- The wallet query ----

  ghost predicate CreditOf(t: Tx, node: string) {
    t.node == node && t.kind == Credit
  }

  // A credit without expiry, or no timed one, or the newest expiry is still to come.
  ghost predicate Backed(txs: seq<Tx>, node: string, now: int) {
    || (exists t :: t in txs && CreditOf(t, node) && t.expiresAt == None)
    || (forall t :: t in txs && CreditOf(t, node) ==> t.expiresAt == None)
    || (exists t :: IsNewestExpiry(txs, node, t) && t > now)
  }

  ghost predicate IsNewestExpiry(txs: seq<Tx>, node: string, e: int) {
    && (exists t :: t in txs && CreditOf(t, node) && t.expiresAt == Some(e))
    && (forall t :: t in txs && CreditOf(t, node) && t.expiresAt.Some? ==> t.expiresAt.value <= e)
  }

  lemma {:induction false} NewestExpiryExists(txs: seq<Tx>, node: string, i: nat) returns (e: int)
    requires i < |txs| && CreditOf(txs[i], node) && txs[i].expiresAt.Some?
    ensures IsNewestExpiry(txs, node, e) && e >= txs[i].expiresAt.value
  {
    var p, last := txs[..|txs| - 1], txs[|txs| - 1];
    assert txs == p + [last];
    e := txs[i].expiresAt.value;
    if j :| 0 <= j < |p| && CreditOf(p[j], node) && p[j].expiresAt.Some? {
      e := NewestExpiryExists(p, node, if i < |p| then i else j);
    }
    if CreditOf(last, node) && last.expiresAt.Some? && last.expiresAt.value > e {
      e := last.expiresAt.value;
    }
  }

  lemma SpendableMeans(txs: seq<Tx>, node: string, now: int)
    ensures Spendable(txs, node, now) <==> Backed(txs, node, now)
  {
    if Spendable(txs, node, now) {
      SpendableIsBacked(txs, node, now);
    }
    if Backed(txs, node, now) {
      BackedIsSpendable(txs, node, now);
    }
  }

  lemma SpendableIsBacked(txs: seq<Tx>, node: string, now: int)
    requires Spendable(txs, node, now)
    ensures Backed(txs, node, now)
  {
    if i :| 0 <= i < |txs| && TimedCredit(txs[i], node) && txs[i].expiresAt.value > now {
      var e := NewestExpiryExists(txs, node, i);
    }
  }

  lemma BackedIsSpendable(txs: seq<Tx>, node: string, now: int)
    requires Backed(txs, node, now)
    ensures Spendable(txs, node, now)
  {
    if e :| IsNewestExpiry(txs, node, e) && e > now {
      var t :| t in txs && CreditOf(t, node) && t.expiresAt == Some(e);
      var i :| 0 <= i < |txs| && txs[i] == t;
      assert TimedCredit(txs[i], node);
    }
  }

  // A node is listed exactly when it is the operator's, not archived, has a balance and is
  // backed by its log rows.
  lemma ListedExactly(db: Db, owner: string, now: int, cs: seq<Cand>, node: string)
    requires WalletAnswer(db, owner, now, cs)
    ensures (exists i :: 0 <= i < |cs| && cs[i].id == node)
      <==> node in db.nodes && db.nodes[node].operator == Some(owner) && !db.nodes[node].archived
           && db.nodes[node].balance > 0 && Backed(db.txs, node, now)
  {
    SpendableMeans(db.txs, node, now);
    if i :| 0 <= i < |cs| && cs[i].id == node {
      assert WalletRow(db, owner, now, cs[i]);
    }
    if Eligible(db, owner, now, node) {
      var i :| 0 <= i < |cs| && cs[i].id == node;
    }
  }

  // The soonest expiry still to come among the node's credits.
  ghost predicate IsSoonest(txs: seq<Tx>, node: string, now: int, h: Option<int>) {
    && (h.Some? ==> h.value > now && exists t :: t in txs && CreditOf(t, node) && t.expiresAt == h)
    && (forall t :: t in txs && CreditOf(t, node) && t.expiresAt.Some? && t.expiresAt.value > now
          ==> h.Some? && h.value <= t.expiresAt.value)
  }

  // Balances as they stand, soonest expiry first, nodes without one last, ties by id.
  lemma ListedInOrder(db: Db, owner: string, now: int, cs: seq<Cand>, i: nat, j: nat)
    requires WalletAnswer(db, owner, now, cs) && i < j < |cs|
    ensures cs[i].id in db.nodes && cs[i].balance == db.nodes[cs[i].id].balance
    ensures IsSoonest(db.txs, cs[i].id, now, cs[i].horizon) && IsSoonest(db.txs, cs[j].id, now, cs[j].horizon)
    ensures cs[i].horizon.None? ==> cs[j].horizon.None?
    ensures cs[i].horizon.Some? && cs[j].horizon.Some? ==> cs[i].horizon.value <= cs[j].horizon.value
    ensures cs[i].horizon == cs[j].horizon ==> Less(cs[i].id, cs[j].id)
  {
    assert WalletRow(db, owner, now, cs[i]) && WalletRow(db, owner, now, cs[j]);
    HorizonIsSoonest(db.txs, cs[i].id, now, cs[i].horizon);
    HorizonIsSoonest(db.txs, cs[j].id, now, cs[j].horizon);
    assert CandLeq(cs[i], cs[j]) && cs[i].id != cs[j].id;
    LessTrichotomy(cs[i].id, cs[j].id);
  }

  lemma HorizonIsSoonest(txs: seq<Tx>, node: string, now: int, h: Option<int>)
    requires IsHorizon(txs, node, now, h)
    ensures IsSoonest(txs, node, now, h)
  {
    forall t | t in txs && CreditOf(t, node) && t.expiresAt.Some? && t.expiresAt.value > now
      ensures h.Some? && h.value <= t.expiresAt.value
    {
      var i :| 0 <= i < |txs| && txs[i] == t;
      assert TimedCredit(txs[i], node);
    }
  }

  // ---- An award can be spent ----

  lemma {:induction false} TotalCovers(cs: seq<Cand>, k: nat, i: nat)
    requires k <= i < |cs| && Positive(cs, k)
    ensures TotalFrom(cs, k) >= cs[i].balance
    decreases i - k
  {
    RestNonNegative(cs, k + 1);
    if k < i {
      TotalCovers(cs, k + 1, i);
    }
  }

  // A live award backs its node.
  lemma AwardBacks(txs: seq<Tx>, node: string, now: int, i: nat)
    requires i < |txs| && CreditOf(txs[i], node) && txs[i].expiresAt.Some? && txs[i].expiresAt.value > now
    ensures Backed(txs, node, now)
  {
    var e := NewestExpiryExists(txs, node, i);
  }

  // After an award has been committed, and until it expires, its node is in the wallet of
  // its operator with its whole balance.
  lemma AwardIsListed(
      db: Db, node: string, amount: nat, task: string, nonce: string, at: int, owner: string, now: int, cs: seq<Cand>)
    returns (i: nat)
    requires Accounted(db) && Awardable(db, node, nonce)
    requires db.nodes[node].operator == Some(owner) && !db.nodes[node].archived && db.nodes[node].balance + amount > 0
    requires now < at + 90 * 86400
    requires WalletAnswer(Next(db, Step(Award(node, amount, task, nonce), at, true)), owner, now, cs)
    ensures i < |cs| && cs[i].id == node && cs[i].balance == db.nodes[node].balance + amount
    ensures Total(cs) >= cs[i].balance
  {
    var db' := Next(db, Step(Award(node, amount, task, nonce), at, true));
    AwardEffect(db, node, amount, task, nonce, at);
    AwardBacks(db'.txs, node, now, |db.txs|);
    ListedExactly(db', owner, now, cs, node);
    i :| 0 <= i < |cs| && cs[i].id == node;
    assert WalletRow(db', owner, now, cs[i]);
    forall j | 0 <= j < |cs|
      ensures cs[j].balance > 0
    {
      assert WalletRow(db', owner, now, cs[j]);
    }
    TotalCovers(cs, 0, i);
  }

  // So a debit the wallet covers goes through, and one up to the awarded node's balance is
  // covered.
  lemma AwardCanBeSpent(
      db: Db, node: string, amount: nat, task: string, nonce: string, at: int, owner: string, now: int, cs: seq<Cand>,
      debit: nat, p: Purpose)
    requires Accounted(db) && Awardable(db, node, nonce)
    requires db.nodes[node].operator == Some(owner) && !db.nodes[node].archived && db.nodes[node].balance + amount > 0
    requires now < at + 90 * 86400
    requires WalletAnswer(Next(db, Step(Award(node, amount, task, nonce), at, true)), owner, now, cs)
    ensures var db' := Next(db, Step(Award(node, amount, task, nonce), at, true));
            var r := WalletDebitAnswer(db', cs, debit, p, NoFault);
            && (r.Debited? <==> debit <= Total(cs) + 1) && (r.Debited? ==> r.spent == debit)
            && (debit <= db.nodes[node].balance + amount ==> r.Debited?)
  {
    var db' := Next(db, Step(Award(node, amount, task, nonce), at, true));
    var _ := AwardIsListed(db, node, amount, task, nonce, at, owner, now, cs);
    AwardKeepsAccounts(db, node, amount, task, nonce, at);
    AnswerIsPending(db', owner, now, cs);
    DrainKeepsAccounts(db', cs, debit, p);
  }

  // ---- Rows of a wallet debit ----

  // What the row of the j-th node says: its own debit for the task, under the consumer's
  // reason, which names the consumer when another node pays.
  lemma WalletRowsMean(cs: seq<Cand>, amount: int, p: Purpose, rows: seq<Tx>, j: nat)
    requires DrainRows(cs, amount, p, rows) && j < |rows|
    ensures var t := rows[j];
            && t.node == cs[j].id && t.kind == Debit && 0 < t.amount <= cs[j].balance && t.task == Some(p.task)
            && t.nonce == None && t.expiresAt == None && (j < |rows| - 1 ==> t.amount == cs[j].balance)
    ensures rows[j].node == p.consumer ==> rows[j].reason == p.reason
    ensures rows[j].node != p.consumer && |p.consumer| >= 8
      ==> rows[j].reason == p.reason + ":operator_wallet:consumer=" + p.consumer[..8]
    ensures rows[j].node != p.consumer && |p.consumer| < 8
      ==> rows[j].reason == p.reason + ":operator_wallet:consumer=" + p.consumer
  {
    assert RowFor(cs[j], rows[j], p);
    if |p.consumer| < 8 {
      assert p.consumer[..|p.consumer|] == p.consumer;
    }
  }
}
