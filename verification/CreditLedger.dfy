// The credit tables and the five kinds of transaction on them. Money is counted in whole
// ten-thousandths, so the code's tolerance of 0.0001 is one unit.
module CreditLedger {
  import opened Text
  import opened Sorting
  import opened Database

  // `balance` mirrors the ledger row's.
  datatype CreditNode = CreditNode(balance: int, operator: Option<string>, archived: bool)
  datatype LedgerRow = LedgerRow(balance: int, freeAt: Option<int>)
  datatype IpGate = IpGate(lastAt: Option<int>, count: nat)

  datatype Kind = Credit | Debit

  // A row of the append-only log. Times are in seconds.
  datatype Tx = Tx(node: string, amount: int, kind: Kind, task: Option<string>, nonce: Option<string>, reason: string,
    expiresAt: Option<int>)

  datatype Db = Db(nodes: map<string, CreditNode>, credits: map<string, LedgerRow>, gates: map<string, IpGate>,
    txs: seq<Tx>)

  const TOLERANCE: int := 1
  const FREE_AMOUNT: int := 1_000_000
  const NINETY_DAYS: int := 7_776_000
  const SIX_HOURS: int := 21_600

  predicate Agree(x: int, y: int) {
    -TOLERANCE <= x - y <= TOLERANCE
  }

  predicate NonceUsed(txs: seq<Tx>, nonce: string) {
    exists i :: 0 <= i < |txs| && txs[i].nonce == Some(nonce)
  }

  ghost function SetBalance(db: Db, node: string, balance: int, freeAt: Option<int>): Db
    requires node in db.nodes
  {
    db.(nodes := db.nodes[node := db.nodes[node].(balance := balance)],
        credits := db.credits[node := LedgerRow(balance, freeAt)])
  }

  // ---- Awards ----

  function AwardRow(node: string, amount: nat, task: string, nonce: string, now: int): Tx {
    Tx(node, amount, Credit, Some(task), Some(nonce), "cip_award", Some(now + NINETY_DAYS))
  }

  // The ledger row an award works on: a missing one starts at the node's balance.
  function AwardLedger(db: Db, node: string): LedgerRow
    requires node in db.nodes
  {
    if node in db.credits then db.credits[node] else LedgerRow(db.nodes[node].balance, None)
  }

  ghost function AwardStep(db: Db, node: string, amount: nat, task: string, nonce: string, now: int): Db {
    if node !in db.nodes || !Agree(AwardLedger(db, node).balance, db.nodes[node].balance) || NonceUsed(db.txs, nonce)
      then db
    else
      var row := AwardLedger(db, node);
      SetBalance(db, node, row.balance + amount, row.freeAt).(
        txs := db.txs + [AwardRow(node, amount, task, nonce, now)])
  }

  // ---- Debits ----

  function DebitRow(node: string, amount: int, task: Option<string>, reason: string): Tx {
    Tx(node, amount, Debit, task, None, reason, None)
  }

  // Takes `amount` from both balances of one node and records it.
  ghost function Take(db: Db, node: string, amount: int, task: Option<string>, reason: string): Db
    requires node in db.nodes && node in db.credits
  {
    db.(nodes := db.nodes[node := db.nodes[node].(balance := db.nodes[node].balance - amount)],
        credits := db.credits[node := db.credits[node].(balance := db.credits[node].balance - amount)],
        txs := db.txs + [DebitRow(node, amount, task, reason)])
  }

  predicate Matched(db: Db, node: string) {
    node in db.nodes && node in db.credits && Agree(db.nodes[node].balance, db.credits[node].balance)
  }

  predicate CanDebit(db: Db, node: string, amount: nat) {
    Matched(db, node) && db.nodes[node].balance + TOLERANCE >= amount && db.credits[node].balance + TOLERANCE >= amount
  }

  ghost function DebitNodeStep(db: Db, node: string, amount: nat, task: string, reason: string): Db {
    if CanDebit(db, node, amount) then Take(db, node, amount, Some(task), reason) else db
  }

  // ---- Operator wallets ----

  datatype Cand = Cand(id: string, balance: int, horizon: Option<int>)

  predicate TimedCredit(t: Tx, node: string) {
    t.node == node && t.kind == Credit && t.expiresAt.Some?
  }

  // Whether some credit of the node never expires, none carries an expiry, or one is still live.
  predicate Spendable(txs: seq<Tx>, node: string, now: int) {
    || (exists i :: 0 <= i < |txs| && txs[i].node == node && txs[i].kind == Credit && txs[i].expiresAt == None)
    || (forall i :: 0 <= i < |txs| ==> !TimedCredit(txs[i], node))
    || (exists i :: 0 <= i < |txs| && TimedCredit(txs[i], node) && txs[i].expiresAt.value > now)
  }

  // The earliest expiry still ahead among the node's credits.
  ghost predicate IsHorizon(txs: seq<Tx>, node: string, now: int, h: Option<int>) {
    match h
    case None => forall i :: 0 <= i < |txs| && TimedCredit(txs[i], node) ==> txs[i].expiresAt.value <= now
    case Some(t) =>
      && (exists i :: 0 <= i < |txs| && TimedCredit(txs[i], node) && txs[i].expiresAt.value == t > now)
      && (forall i :: 0 <= i < |txs| && TimedCredit(txs[i], node) ==>
            txs[i].expiresAt.value <= now || t <= txs[i].expiresAt.value)
  }

  ghost predicate Eligible(db: Db, operator: string, now: int, node: string) {
    node in db.nodes && db.nodes[node].operator == Some(operator) && !db.nodes[node].archived
    && db.nodes[node].balance > 0 && Spendable(db.txs, node, now)
  }

  // Soonest expiry first, nodes without one last, ties by id.
  predicate CandLeq(a: Cand, b: Cand) {
    if a.horizon == b.horizon then Leq(a.id, b.id)
    else if a.horizon.None? then false
    else b.horizon.None? || a.horizon.value < b.horizon.value
  }

  // A row the wallet query returns.
  ghost predicate WalletRow(db: Db, owner: string, now: int, c: Cand) {
    Eligible(db, owner, now, c.id) && c.balance == db.nodes[c.id].balance && IsHorizon(db.txs, c.id, now, c.horizon)
  }

  // `cs` is the database's answer to the wallet query.
  ghost predicate WalletAnswer(db: Db, operator: string, now: int, cs: seq<Cand>) {
    && Sorted(cs, CandLeq)
    && (forall i, j :: 0 <= i < j < |cs| ==> cs[i].id != cs[j].id)
    && (forall i :: 0 <= i < |cs| ==> WalletRow(db, operator, now, cs[i]))
    && (forall node :: Eligible(db, operator, now, node) ==> exists i :: 0 <= i < |cs| && cs[i].id == node)
  }

  // The balances of the candidates from position `i` on.
  function TotalFrom(cs: seq<Cand>, i: nat): int
    requires i <= |cs|
    decreases |cs| - i
  {
    if i == |cs| then 0 else cs[i].balance + TotalFrom(cs, i + 1)
  }

  function Total(cs: seq<Cand>): int {
    TotalFrom(cs, 0)
  }

  // On whose behalf and for what a wallet is debited.
  datatype Purpose = Purpose(consumer: string, task: string, reason: string)

  function WalletReason(p: Purpose, node: string): string {
    if node == p.consumer then p.reason
    else p.reason + ":operator_wallet:consumer=" + p.consumer[..if |p.consumer| < 8 then |p.consumer| else 8]
  }

  function MinInt(x: int, y: int): int { if x < y then x else y }

  function WalletRowOf(c: Cand, remaining: int, p: Purpose): Tx {
    DebitRow(c.id, MinInt(remaining, c.balance), Some(p.task), WalletReason(p, c.id))
  }

  // Takes what one candidate can give; None when its ledger row is missing or disagrees.
  ghost function DrainOne(db: Db, c: Cand, remaining: int, p: Purpose): Option<Db> {
    if c.id !in db.credits || !Agree(db.credits[c.id].balance, c.balance) || !Matched(db, c.id) then None
    else Some(Take(db, c.id, MinInt(remaining, c.balance), Some(p.task), WalletReason(p, c.id)))
  }

  // Walks the candidates from position `i` on while something remains to be taken.
  ghost function DrainFrom(db: Db, cs: seq<Cand>, i: nat, remaining: int, p: Purpose): Option<Db>
    requires i <= |cs|
    decreases |cs| - i
  {
    if i == |cs| || remaining <= 0 then Some(db)
    else
      var one := DrainOne(db, cs[i], remaining, p);
      if one.None? then None else DrainFrom(one.value, cs, i + 1, remaining - MinInt(remaining, cs[i].balance), p)
  }

  ghost function WalletStep(db: Db, cs: seq<Cand>, amount: nat, p: Purpose): Db {
    if Total(cs) + TOLERANCE < amount then db
    else
      var drained := DrainFrom(db, cs, 0, amount, p);
      if drained.Some? then drained.value else db
  }

  // ---- Expiry and free credits ----

  ghost function ExpireStep(db: Db, node: string, expected: int): Db {
    if Matched(db, node) && db.nodes[node].balance == expected
    then
      SetBalance(db, node, 0, db.credits[node].freeAt).(
        txs := db.txs + [DebitRow(node, expected, None, "ttl_expire")])
    else db
  }

  predicate Recent(at: Option<int>, now: int) {
    at.Some? && at.value > now - SIX_HOURS
  }

  function GateOf(db: Db, ip: string): IpGate {
    if ip in db.gates then db.gates[ip] else IpGate(None, 0)
  }

  function FreeLedger(db: Db, node: string): LedgerRow {
    if node in db.credits then db.credits[node] else LedgerRow(0, None)
  }

  predicate MayAllocate(db: Db, node: string, ip: string, now: int) {
    var row := FreeLedger(db, node);
    node in db.nodes && row.balance <= 0 && !Recent(row.freeAt, now) && !Recent(GateOf(db, ip).lastAt, now)
  }

  function FreeRow(node: string, now: int): Tx {
    Tx(node, FREE_AMOUNT, Credit, None, None, "free_allocation", Some(now + NINETY_DAYS))
  }

  ghost function AllocateStep(db: Db, node: string, ip: string, now: int): Db {
    if !MayAllocate(db, node, ip, now) then db
    else
      SetBalance(db, node, FreeLedger(db, node).balance + FREE_AMOUNT, Some(now)).(
        gates := db.gates[ip := IpGate(Some(now), GateOf(db, ip).count + 1)],
        txs := db.txs + [FreeRow(node, now)])
  }

  // ---- Steps and runs ----

  datatype Action =
    | Award(node: string, amount: nat, task: string, nonce: string)
    | DebitNode(node: string, amount: nat, task: string, reason: string)
    | DebitWallet(owner: string, cands: seq<Cand>, amount: nat, purpose: Purpose)
    | Expire(node: string, expected: int)
    | Allocate(node: string, ip: string)
    | Enroll(node: string, operator: Option<string>)
    | Reassign(node: string, operator: Option<string>, archived: bool)

  // One attempt at a transaction; `commits` is false when it is rolled back.
  datatype Step = Step(action: Action, now: int, commits: bool)

  ghost function Next(db: Db, s: Step): Db {
    if !s.commits then db
    else match s.action
      case Award(node, amount, task, nonce) => AwardStep(db, node, amount, task, nonce, s.now)
      case DebitNode(node, amount, task, reason) => DebitNodeStep(db, node, amount, task, reason)
      case DebitWallet(owner, cs, amount, p) =>
        if WalletAnswer(db, owner, s.now, cs) then WalletStep(db, cs, amount, p) else db
      case Expire(node, expected) => ExpireStep(db, node, expected)
      case Allocate(node, ip) => AllocateStep(db, node, ip, s.now)
      case Enroll(node, operator) =>
        if node in db.nodes then db else db.(nodes := db.nodes[node := CreditNode(0, operator, false)])
      case Reassign(node, operator, archived) =>
        if node !in db.nodes then db
        else db.(nodes := db.nodes[node := db.nodes[node].(operator := operator, archived := archived)])
  }

  ghost function Run(db: Db, steps: seq<Step>): Db {
    if steps == [] then db else Next(Run(db, steps[..|steps| - 1]), steps[|steps| - 1])
  }

  lemma {:induction false} RunConcat(db: Db, p: seq<Step>, q: seq<Step>)
    ensures Run(db, p + q) == Run(Run(db, p), q)
  {
    if q == [] {
      assert p + q == p;
    } else {
      assert (p + q)[..|p + q| - 1] == p + q[..|q| - 1];
      RunConcat(db, p, q[..|q| - 1]);
    }
  }
}

// The accounting of the ledger over whole runs.
module CreditAccounting {
  import opened Text
  import opened Sorting
  import opened TextSorting
  import opened CreditLedger

  // Recorded credits of a node minus its recorded debits.
  ghost function Net(txs: seq<Tx>, node: string): int {
    if txs == [] then 0
    else
      var t := txs[|txs| - 1];
      Net(txs[..|txs| - 1], node) + if t.node != node then 0 else if t.kind == Credit then t.amount else -t.amount
  }

  // Both balances equal what the log says, none is below minus one unit, and no nonce
  // was credited twice.
  ghost predicate Accounted(db: Db) {
    && (forall n :: n in db.credits ==> n in db.nodes && db.credits[n].balance == db.nodes[n].balance)
    && (forall n :: n in db.nodes && n !in db.credits ==> db.nodes[n].balance == 0)
    && (forall n :: n in db.nodes ==> db.nodes[n].balance == Net(db.txs, n) && db.nodes[n].balance >= -TOLERANCE)
    && (forall i :: 0 <= i < |db.txs| ==> db.txs[i].node in db.nodes)
    && (forall i, j :: 0 <= i < j < |db.txs| && db.txs[i].nonce.Some? ==> db.txs[i].nonce != db.txs[j].nonce)
  }

  // Nodes with nothing on either side: where a run starts.
  ghost predicate EmptyLedger(db: Db) {
    db.credits == map[] && db.txs == [] && forall n :: n in db.nodes ==> db.nodes[n].balance == 0
  }

  lemma NetOfAppend(txs: seq<Tx>, t: Tx, node: string)
    ensures Net(txs + [t], node)
      == Net(txs, node) + if t.node != node then 0 else if t.kind == Credit then t.amount else -t.amount
  {
    assert (txs + [t])[..|txs|] == txs;
  }

  lemma NetsOfAppend(txs: seq<Tx>, t: Tx)
    ensures forall n ::
      Net(txs + [t], n) == Net(txs, n) + if t.node != n then 0 else if t.kind == Credit then t.amount else -t.amount
  {
    forall n {
      NetOfAppend(txs, t, n);
    }
  }

  // A step that moves both balances of one node and records the difference keeps the account.
  lemma MoveKeepsAccounts(db: Db, db': Db, node: string, t: Tx)
    requires Accounted(db) && node in db.nodes && t.node == node
    requires db'.nodes.Keys == db.nodes.Keys && db'.credits.Keys == db.credits.Keys + {node}
    requires forall n :: n in db.nodes && n != node ==> db'.nodes[n].balance == db.nodes[n].balance
    requires forall n :: n in db.credits && n != node ==> db'.credits[n].balance == db.credits[n].balance
    requires db'.nodes[node].balance == db'.credits[node].balance
      == db.nodes[node].balance + if t.kind == Credit then t.amount else -t.amount
    requires db'.nodes[node].balance >= -TOLERANCE
    requires db'.txs == db.txs + [t]
    requires t.nonce.Some? ==> !NonceUsed(db.txs, t.nonce.value)
    ensures Accounted(db')
  {
    NetsOfAppend(db.txs, t);
  }

  lemma TakeKeepsAccounts(db: Db, node: string, amount: int, task: Option<string>, reason: string)
    requires Accounted(db) && node in db.credits && db.nodes[node].balance - amount >= -TOLERANCE
    ensures Accounted(Take(db, node, amount, task, reason))
  {
    MoveKeepsAccounts(db, Take(db, node, amount, task, reason), node, DebitRow(node, amount, task, reason));
  }

  // The candidates from position `i` on are as the query saw them, on both sides.
  ghost predicate Pending(db: Db, cs: seq<Cand>, i: nat) {
    && (forall j :: i <= j < |cs| ==> Holds(db, cs[j]))
    && (forall j, k :: 0 <= j < k < |cs| ==> cs[j].id != cs[k].id)
  }

  ghost predicate Holds(db: Db, c: Cand) {
    c.id in db.nodes && c.id in db.credits && db.nodes[c.id].balance == db.credits[c.id].balance == c.balance > 0
  }

  // A pending candidate gives what it can without an error, and the rest stay pending.
  lemma OneGives(db: Db, cs: seq<Cand>, i: nat, remaining: int, p: Purpose)
    requires Pending(db, cs, i) && i < |cs| && remaining > 0
    ensures var c, take := cs[i], MinInt(remaining, cs[i].balance);
            DrainOne(db, c, remaining, p) == Some(Take(db, c.id, take, Some(p.task), WalletReason(p, c.id)))
    ensures Pending(DrainOne(db, cs[i], remaining, p).value, cs, i + 1)
  {
    assert Holds(db, cs[i]);
    var one := DrainOne(db, cs[i], remaining, p).value;
    forall j | i + 1 <= j < |cs|
      ensures Holds(one, cs[j])
    {
      assert Holds(db, cs[j]) && cs[j].id != cs[i].id;
    }
  }

  lemma OneKeepsAccounts(db: Db, c: Cand, remaining: int, p: Purpose)
    requires Accounted(db) && Holds(db, c) && remaining > 0
    ensures DrainOne(db, c, remaining, p).Some? && Accounted(DrainOne(db, c, remaining, p).value)
  {
    TakeKeepsAccounts(db, c.id, MinInt(remaining, c.balance), Some(p.task), WalletReason(p, c.id));
  }

  // What one candidate's turn keeps, a whole drain keeps. `rows` are those written so far.
  lemma {:induction false} DrainKeeps(
      keep: (Db, int, seq<Tx>) -> bool, db: Db, cs: seq<Cand>, left: int, p: Purpose, rows: seq<Tx>)
    returns (last: int, all: seq<Tx>)
    requires |rows| <= |cs| && keep(db, left, rows)
    requires forall d: Db, l: int, rs: seq<Tx> ::
      keep(d, l, rs) && |rs| < |cs| && l > 0 ==> TurnKeeps(keep, d, cs, l, p, rs)
    ensures DrainFrom(db, cs, |rows|, left, p).Some? && keep(DrainFrom(db, cs, |rows|, left, p).value, last, all)
    ensures |all| <= |cs| && (last <= 0 || |all| == |cs|)
    decreases |cs| - |rows|
  {
    last, all := left, rows;
    if |rows| < |cs| && left > 0 {
      var c := cs[|rows|];
      assert TurnKeeps(keep, db, cs, left, p, rows);
      var one := DrainOne(db, c, left, p).value;
      last, all := DrainKeeps(keep, one, cs, left - MinInt(left, c.balance), p, rows + [WalletRowOf(c, left, p)]);
    }
  }

  ghost predicate TurnKeeps(
      keep: (Db, int, seq<Tx>) -> bool, db: Db, cs: seq<Cand>, left: int, p: Purpose, rows: seq<Tx>)
    requires |rows| < |cs|
  {
    var c := cs[|rows|];
    var one := DrainOne(db, c, left, p);
    one.Some? && keep(one.value, left - MinInt(left, c.balance), rows + [WalletRowOf(c, left, p)])
  }

  // With the accounts in order a wallet is drained without an error.
  lemma DrainKeepsAccounts(db: Db, cs: seq<Cand>, remaining: int, p: Purpose)
    requires Accounted(db) && Pending(db, cs, 0)
    ensures DrainFrom(db, cs, 0, remaining, p).Some? && Accounted(DrainFrom(db, cs, 0, remaining, p).value)
  {
    var keep := (d: Db, l: int, rs: seq<Tx>) => Accounted(d) && Pending(d, cs, |rs|);
    forall d: Db, l: int, rs: seq<Tx> | keep(d, l, rs) && |rs| < |cs| && l > 0
      ensures TurnKeeps(keep, d, cs, l, p, rs)
    {
      assert Holds(d, cs[|rs|]);
      OneKeepsAccounts(d, cs[|rs|], l, p);
      OneGives(d, cs, |rs|, l, p);
    }
    var _, _ := DrainKeeps(keep, db, cs, remaining, p, []);
  }

  lemma AnswerIsPending(db: Db, operator: string, now: int, cs: seq<Cand>)
    requires Accounted(db) && WalletAnswer(db, operator, now, cs)
    ensures Pending(db, cs, 0)
  {
    forall i | 0 <= i < |cs|
      ensures Holds(db, cs[i])
    {
      assert WalletRow(db, operator, now, cs[i]);
    }
  }

  lemma AwardKeepsAccounts(db: Db, node: string, amount: nat, task: string, nonce: string, now: int)
    requires Accounted(db)
    ensures Accounted(AwardStep(db, node, amount, task, nonce, now))
  {
    var db' := AwardStep(db, node, amount, task, nonce, now);
    if db' != db {
      MoveKeepsAccounts(db, db', node, AwardRow(node, amount, task, nonce, now));
    }
  }

  lemma WalletKeepsAccounts(db: Db, owner: string, now: int, cs: seq<Cand>, amount: nat, p: Purpose)
    requires Accounted(db) && WalletAnswer(db, owner, now, cs)
    ensures Accounted(WalletStep(db, cs, amount, p))
  {
    AnswerIsPending(db, owner, now, cs);
    DrainKeepsAccounts(db, cs, amount, p);
  }

  lemma ExpireKeepsAccounts(db: Db, node: string, expected: int)
    requires Accounted(db)
    ensures Accounted(ExpireStep(db, node, expected))
  {
    var db' := ExpireStep(db, node, expected);
    if db' != db {
      MoveKeepsAccounts(db, db', node, DebitRow(node, expected, None, "ttl_expire"));
    }
  }

  lemma AllocateKeepsAccounts(db: Db, node: string, ip: string, now: int)
    requires Accounted(db)
    ensures Accounted(AllocateStep(db, node, ip, now))
  {
    var db' := AllocateStep(db, node, ip, now);
    if db' != db {
      MoveKeepsAccounts(db, db', node, FreeRow(node, now));
    }
  }

  lemma EnrollKeepsAccounts(db: Db, node: string, operator: Option<string>)
    requires Accounted(db) && node !in db.nodes
    ensures Accounted(db.(nodes := db.nodes[node := CreditNode(0, operator, false)]))
  {
    NetOfStranger(db.txs, node);
  }

  lemma ReassignKeepsAccounts(db: Db, node: string, operator: Option<string>, archived: bool)
    requires Accounted(db) && node in db.nodes
    ensures Accounted(db.(nodes := db.nodes[node := db.nodes[node].(operator := operator, archived := archived)]))
  {
  }

  lemma DebitKeepsAccounts(db: Db, node: string, amount: nat, task: string, reason: string)
    requires Accounted(db)
    ensures Accounted(DebitNodeStep(db, node, amount, task, reason))
  {
    if CanDebit(db, node, amount) {
      TakeKeepsAccounts(db, node, amount, Some(task), reason);
    }
  }

  lemma StepKeepsAccounts(db: Db, s: Step)
    requires Accounted(db)
    ensures Accounted(Next(db, s))
  {
    match s.action
    case Award(node, amount, task, nonce) => AwardKeepsAccounts(db, node, amount, task, nonce, s.now);
    case DebitNode(node, amount, task, reason) => DebitKeepsAccounts(db, node, amount, task, reason);
    case DebitWallet(owner, cs, amount, p) =>
      if WalletAnswer(db, owner, s.now, cs) {
        WalletKeepsAccounts(db, owner, s.now, cs, amount, p);
      }
    case Expire(node, expected) => ExpireKeepsAccounts(db, node, expected);
    case Allocate(node, ip) => AllocateKeepsAccounts(db, node, ip, s.now);
    case Enroll(node, operator) =>
      if node !in db.nodes {
        EnrollKeepsAccounts(db, node, operator);
      }
    case Reassign(node, operator, archived) =>
      if node in db.nodes {
        ReassignKeepsAccounts(db, node, operator, archived);
      }
  }

  lemma {:induction false} NetOfStranger(txs: seq<Tx>, node: string)
    requires forall i :: 0 <= i < |txs| ==> txs[i].node != node
    ensures Net(txs, node) == 0
  {
    if txs != [] {
      NetOfStranger(txs[..|txs| - 1], node);
    }
  }

  // In every interleaving, with whatever aborts and retries, the accounts stay in order.
  lemma {:induction false} RunKeepsAccounts(db: Db, steps: seq<Step>)
    requires Accounted(db)
    ensures Accounted(Run(db, steps))
  {
    if steps != [] {
      var n := |steps| - 1;
      RunKeepsAccounts(db, steps[..n]);
      StepKeepsAccounts(Run(db, steps[..n]), steps[n]);
    }
  }

  lemma {:induction false} DrainAppends(db: Db, cs: seq<Cand>, i: nat, remaining: int, p: Purpose)
    requires i <= |cs|
    ensures var r := DrainFrom(db, cs, i, remaining, p); r.Some? ==> db.txs <= r.value.txs
    decreases |cs| - i
  {
    if i < |cs| && remaining > 0 && DrainOne(db, cs[i], remaining, p).Some? {
      DrainAppends(DrainOne(db, cs[i], remaining, p).value, cs, i + 1, remaining - MinInt(remaining, cs[i].balance), p);
    }
  }

  // Rows of the log are never changed or removed, accounts in order or not.
  lemma {:induction false} RunAppends(db: Db, steps: seq<Step>)
    ensures db.txs <= Run(db, steps).txs
  {
    if steps != [] {
      var n := |steps| - 1;
      RunAppends(db, steps[..n]);
      var a := steps[n].action;
      if a.DebitWallet? {
        DrainAppends(Run(db, steps[..n]), a.cands, 0, a.amount, a.purpose);
      }
    }
  }

  lemma FreshIsAccounted(db: Db)
    requires EmptyLedger(db)
    ensures Accounted(db)
  {
  }

  // ---- Free credits are spaced ----

  ghost predicate Granted(db: Db, steps: seq<Step>, i: nat)
    requires i < |steps|
  {
    steps[i].commits && steps[i].action.Allocate?
      && MayAllocate(Run(db, steps[..i]), steps[i].action.node, steps[i].action.ip, steps[i].now)
  }

  ghost predicate NodeStamped(db: Db, node: string, t: int) {
    node in db.credits && db.credits[node].freeAt.Some? && db.credits[node].freeAt.value >= t
  }

  ghost predicate IpStamped(db: Db, ip: string, t: int) {
    ip in db.gates && db.gates[ip].lastAt.Some? && db.gates[ip].lastAt.value >= t
  }

  lemma {:induction false} DrainKeepsStamps(
      db: Db, cs: seq<Cand>, i: nat, remaining: int, p: Purpose, node: string, t: int)
    requires i <= |cs|
    ensures var r := DrainFrom(db, cs, i, remaining, p);
            r.Some? ==> r.value.gates == db.gates && (NodeStamped(db, node, t) ==> NodeStamped(r.value, node, t))
    decreases |cs| - i
  {
    if i < |cs| && remaining > 0 && DrainOne(db, cs[i], remaining, p).Some? {
      var left := remaining - MinInt(remaining, cs[i].balance);
      DrainKeepsStamps(DrainOne(db, cs[i], remaining, p).value, cs, i + 1, left, p, node, t);
    }
  }

  lemma StepKeepsStamps(db: Db, s: Step, node: string, ip: string, t: int)
    ensures NodeStamped(db, node, t) ==> NodeStamped(Next(db, s), node, t)
    ensures IpStamped(db, ip, t) ==> IpStamped(Next(db, s), ip, t)
  {
    if s.action.DebitWallet? {
      DrainKeepsStamps(db, s.action.cands, 0, s.action.amount, s.action.purpose, node, t);
    }
  }

  lemma {:induction false} StampsLast(db: Db, steps: seq<Step>, i: nat, j: nat)
    requires i < j <= |steps| && Granted(db, steps, i)
    ensures NodeStamped(Run(db, steps[..j]), steps[i].action.node, steps[i].now)
    ensures IpStamped(Run(db, steps[..j]), steps[i].action.ip, steps[i].now)
  {
    assert steps[..j][..j - 1] == steps[..j - 1];
    if i < j - 1 {
      StampsLast(db, steps, i, j - 1);
      StepKeepsStamps(Run(db, steps[..j - 1]), steps[j - 1], steps[i].action.node, steps[i].action.ip, steps[i].now);
    }
  }

  // However the run interleaves and whatever the clock does, two free allocations to one
  // node, or from one address, are at least six hours apart.
  lemma FreeCreditsAreSpaced(db: Db, steps: seq<Step>, i: nat, j: nat)
    requires i < j < |steps| && Granted(db, steps, i) && Granted(db, steps, j)
    requires steps[i].action.node == steps[j].action.node || steps[i].action.ip == steps[j].action.ip
    ensures steps[j].now >= steps[i].now + SIX_HOURS
  {
    StampsLast(db, steps, i, j);
  }

  // ---- What a wallet debit does ----

  function Amounts(rows: seq<Tx>): int {
    if rows == [] then 0 else Amounts(rows[..|rows| - 1]) + rows[|rows| - 1].amount
  }

  // A row that takes something of one candidate's balance.
  ghost predicate RowFor(c: Cand, t: Tx, p: Purpose) {
    t == DebitRow(c.id, t.amount, Some(p.task), WalletReason(p, c.id)) && 0 < t.amount <= c.balance
  }

  ghost predicate RowsFor(cs: seq<Cand>, rows: seq<Tx>, p: Purpose) {
    |rows| <= |cs| && forall j :: 0 <= j < |rows| ==> RowFor(cs[j], rows[j], p)
  }

  // The first `n` rows take whole balances.
  ghost predicate Whole(cs: seq<Cand>, rows: seq<Tx>, n: int) {
    n <= |rows| <= |cs| && forall j :: 0 <= j < n ==> rows[j].amount == cs[j].balance
  }

  // The rows written: one per drained node, in query order, all but the last for the
  // node's whole balance, in all the amount or the wallet.
  ghost predicate DrainRows(cs: seq<Cand>, amount: int, p: Purpose, rows: seq<Tx>) {
    RowsFor(cs, rows, p) && Whole(cs, rows, |rows| - 1) && Amounts(rows) == MinInt(amount, Total(cs))
  }

  // The drained nodes keep what their row leaves them, never less than nothing.
  ghost predicate Reduced(db': Db, cs: seq<Cand>, rows: seq<Tx>)
    requires |rows| <= |cs|
  {
    forall j :: 0 <= j < |rows| ==>
      cs[j].id in db'.nodes && db'.nodes[cs[j].id].balance == cs[j].balance - rows[j].amount >= 0
  }

  // Every node but the first `n` candidates is as it was.
  ghost predicate Untouched(db: Db, db': Db, cs: seq<Cand>, n: nat)
    requires n <= |cs|
  {
    forall x :: x in db.nodes && (forall k :: 0 <= k < n ==> cs[k].id != x)
      ==> x in db'.nodes && db'.nodes[x] == db.nodes[x]
  }

  ghost predicate Drained(db: Db, db': Db, cs: seq<Cand>, rows: seq<Tx>) {
    && db'.txs == db.txs + rows && db'.gates == db.gates
    && |rows| <= |cs| && Reduced(db', cs, rows) && Untouched(db, db', cs, |rows|)
  }

  // Part of the way: the first nodes have given, all of them everything as long as
  // something remains to be taken, and the others are still to come.
  ghost predicate Underway(db: Db, db': Db, cs: seq<Cand>, amount: int, left: int, p: Purpose, rows: seq<Tx>) {
    Drained(db, db', cs, rows) && Pending(db', cs, |rows|) && Tally(cs, amount, left, p, rows)
  }

  ghost predicate Tally(cs: seq<Cand>, amount: int, left: int, p: Purpose, rows: seq<Tx>) {
    && RowsFor(cs, rows, p) && Whole(cs, rows, if left > 0 then |rows| else |rows| - 1)
    && 0 <= left && Amounts(rows) == amount - left <= Total(cs)
    && (left > 0 ==> Amounts(rows) == Total(cs) - TotalFrom(cs, |rows|))
  }

  lemma AmountsOfAppend(rows: seq<Tx>, row: Tx)
    ensures Amounts(rows + [row]) == Amounts(rows) + row.amount
  {
    assert (rows + [row])[..|rows|] == rows;
  }

  // One more candidate gives: its node is reduced, the others stay.
  lemma DrainedGrows(db: Db, db': Db, cs: seq<Cand>, left: int, p: Purpose, rows: seq<Tx>)
    requires Drained(db, db', cs, rows) && |rows| < |cs| && Pending(db', cs, |rows|) && left > 0
    ensures var c := cs[|rows|];
            && DrainOne(db', c, left, p).Some?
            && Drained(db, DrainOne(db', c, left, p).value, cs, rows + [WalletRowOf(c, left, p)])
            && Pending(DrainOne(db', c, left, p).value, cs, |rows| + 1)
  {
    var c, row := cs[|rows|], WalletRowOf(cs[|rows|], left, p);
    OneGives(db', cs, |rows|, left, p);
    assert Holds(db', c);
    var one := DrainOne(db', c, left, p).value;
    TakenReduces(db', one, cs, rows, row);
    TakenLeavesOthers(db, db', one, cs, |rows|);
    assert one.txs == db.txs + (rows + [row]);
  }

  // Only the balance of node `c` has changed.
  ghost predicate OnlyAt(db: Db, db': Db, c: string) {
    c in db'.nodes && forall x :: x in db.nodes && x != c ==> x in db'.nodes && db'.nodes[x] == db.nodes[x]
  }

  lemma TakenReduces(db: Db, db': Db, cs: seq<Cand>, rows: seq<Tx>, row: Tx)
    requires |rows| < |cs| && Reduced(db, cs, rows) && OnlyAt(db, db', cs[|rows|].id)
    requires db'.nodes[cs[|rows|].id].balance == cs[|rows|].balance - row.amount >= 0
    requires forall j :: 0 <= j < |rows| ==> cs[j].id != cs[|rows|].id
    ensures Reduced(db', cs, rows + [row])
  {
  }

  lemma TakenLeavesOthers(db: Db, db': Db, one: Db, cs: seq<Cand>, n: nat)
    requires n < |cs| && Untouched(db, db', cs, n) && OnlyAt(db', one, cs[n].id)
    ensures Untouched(db, one, cs, n + 1)
  {
    forall x | x in db.nodes && (forall k :: 0 <= k < n + 1 ==> cs[k].id != x)
      ensures x in one.nodes && one.nodes[x] == db.nodes[x]
    {
      assert cs[n].id != x;
    }
  }

  // The candidates left to come have something to give.
  ghost predicate Positive(cs: seq<Cand>, i: nat) {
    forall j :: i <= j < |cs| ==> cs[j].balance > 0
  }

  lemma {:induction false} RestNonNegative(cs: seq<Cand>, i: nat)
    requires i <= |cs| && Positive(cs, i)
    ensures TotalFrom(cs, i) >= 0
    decreases |cs| - i
  {
    if i < |cs| {
      RestNonNegative(cs, i + 1);
    }
  }

  lemma PendingIsPositive(db: Db, cs: seq<Cand>, i: nat)
    requires Pending(db, cs, i)
    ensures Positive(cs, i)
  {
    forall j | i <= j < |cs|
      ensures cs[j].balance > 0
    {
      assert Holds(db, cs[j]);
    }
  }

  lemma RowsGrow(cs: seq<Cand>, left: int, p: Purpose, rows: seq<Tx>)
    requires RowsFor(cs, rows, p) && Whole(cs, rows, |rows|) && |rows| < |cs| && left > 0 && cs[|rows|].balance > 0
    ensures var all := rows + [WalletRowOf(cs[|rows|], left, p)];
            RowsFor(cs, all, p) && Whole(cs, all, |rows|) && (cs[|rows|].balance <= left ==> Whole(cs, all, |rows| + 1))
  {
  }

  // The walk ends: nothing remains, or nobody is left to give.
  lemma TallyEnds(cs: seq<Cand>, amount: int, left: int, p: Purpose, rows: seq<Tx>)
    requires Tally(cs, amount, left, p, rows) && (|rows| == |cs| || left <= 0)
    ensures DrainRows(cs, amount, p, rows)
  {
  }

  // What remains shrinks by what is taken, and what was taken stays below the total.
  lemma SumsGrow(cs: seq<Cand>, amount: int, left: int, n: nat)
    requires n < |cs| && Positive(cs, n) && left > 0 && amount - left == Total(cs) - TotalFrom(cs, n)
    ensures var left' := left - MinInt(left, cs[n].balance);
            && 0 <= left' && amount - left' <= Total(cs)
            && (left' > 0 ==> cs[n].balance < left && amount - left' == Total(cs) - TotalFrom(cs, n + 1))
  {
    RestNonNegative(cs, n + 1);
  }

  lemma TallyGrows(cs: seq<Cand>, amount: int, left: int, p: Purpose, rows: seq<Tx>)
    requires Tally(cs, amount, left, p, rows) && Positive(cs, |rows|) && |rows| < |cs| && 0 < left
    ensures Tally(cs, amount, left - MinInt(left, cs[|rows|].balance), p, rows + [WalletRowOf(cs[|rows|], left, p)])
  {
    var all := rows + [WalletRowOf(cs[|rows|], left, p)];
    RowsGrow(cs, left, p, rows);
    AmountsOfAppend(rows, WalletRowOf(cs[|rows|], left, p));
    SumsGrow(cs, amount, left, |rows|);
    assert |all| == |rows| + 1;
  }

  // Draining pending candidates never fails and leaves these rows.
  lemma DrainShape(db: Db, cs: seq<Cand>, amount: nat, p: Purpose) returns (rows: seq<Tx>)
    requires Pending(db, cs, 0)
    ensures DrainFrom(db, cs, 0, amount, p).Some? && DrainRows(cs, amount, p, rows)
    ensures Drained(db, DrainFrom(db, cs, 0, amount, p).value, cs, rows)
  {
    ProgressGoesOn(db, cs, amount, p);
    NothingTaken(db, cs, amount, p);
    var last;
    last, rows := DrainKeeps(Progress(db, cs, amount, p), db, cs, amount, p, []);
    TallyEnds(cs, amount, last, p, rows);
  }

  ghost function Progress(db: Db, cs: seq<Cand>, amount: int, p: Purpose): (Db, int, seq<Tx>) -> bool {
    (d, l, rs) => Underway(db, d, cs, amount, l, p, rs)
  }

  lemma ProgressGoesOn(db: Db, cs: seq<Cand>, amount: int, p: Purpose)
    ensures var keep := Progress(db, cs, amount, p);
            forall d: Db, l: int, rs: seq<Tx> ::
              keep(d, l, rs) && |rs| < |cs| && l > 0 ==> TurnKeeps(keep, d, cs, l, p, rs)
  {
    var keep := Progress(db, cs, amount, p);
    forall d: Db, l: int, rs: seq<Tx> | keep(d, l, rs) && |rs| < |cs| && l > 0
      ensures TurnKeeps(keep, d, cs, l, p, rs)
    {
      TurnGoesOn(db, d, cs, amount, l, p, rs);
    }
  }

  lemma NothingTaken(db: Db, cs: seq<Cand>, amount: nat, p: Purpose)
    requires Pending(db, cs, 0)
    ensures Underway(db, db, cs, amount, amount, p, [])
  {
    assert db.txs + [] == db.txs;
    PendingIsPositive(db, cs, 0);
    RestNonNegative(cs, 0);
  }

  lemma TurnGoesOn(db: Db, db': Db, cs: seq<Cand>, amount: int, left: int, p: Purpose, rows: seq<Tx>)
    requires Underway(db, db', cs, amount, left, p, rows) && |rows| < |cs| && left > 0
    ensures var c, one := cs[|rows|], DrainOne(db', cs[|rows|], left, p);
            one.Some?
            && Underway(db, one.value, cs, amount, left - MinInt(left, c.balance), p, rows + [WalletRowOf(c, left, p)])
  {
    PendingIsPositive(db', cs, |rows|);
    DrainedGrows(db, db', cs, left, p, rows);
    TallyGrows(cs, amount, left, p, rows);
  }

  lemma PendingWalletDebit(db: Db, cs: seq<Cand>, amount: nat, p: Purpose) returns (rows: seq<Tx>)
    requires Pending(db, cs, 0) && Total(cs) + TOLERANCE >= amount
    ensures DrainRows(cs, amount, p, rows) && Drained(db, WalletStep(db, cs, amount, p), cs, rows)
  {
    rows := DrainShape(db, cs, amount, p);
  }

  // A wallet debit is all or nothing. It goes through exactly when the wallet holds the
  // amount, one unit short at most; then the rows add up to the amount, or to the whole
  // wallet when that is the missing unit.
  lemma WalletDebitIsAllOrNothing(db: Db, owner: string, now: int, cs: seq<Cand>, amount: nat, p: Purpose)
    returns (rows: seq<Tx>)
    requires Accounted(db) && WalletAnswer(db, owner, now, cs)
    ensures Total(cs) + TOLERANCE < amount ==> WalletStep(db, cs, amount, p) == db
    ensures Total(cs) + TOLERANCE >= amount
      ==> DrainRows(cs, amount, p, rows) && Drained(db, WalletStep(db, cs, amount, p), cs, rows)
    ensures Total(cs) + TOLERANCE >= amount
      ==> amount - TOLERANCE <= Amounts(rows) <= amount && (Amounts(rows) == amount <==> amount <= Total(cs))
  {
    rows := [];
    if Total(cs) + TOLERANCE >= amount {
      AnswerIsPending(db, owner, now, cs);
      rows := PendingWalletDebit(db, cs, amount, p);
    }
  }

  // ---- The wallet query has exactly one answer ----

  lemma CandOrder()
    ensures TotalPreorder(CandLeq)
  {
    TextOrder();
  }

  lemma WalletAnswerIsUnique(db: Db, owner: string, now: int, a: seq<Cand>, b: seq<Cand>)
    requires WalletAnswer(db, owner, now, a) && WalletAnswer(db, owner, now, b)
    ensures a == b
  {
    CandOrder();
    TextOrder();
    forall c | c in a
      ensures c in b
    {
      SameCandidate(db, owner, now, a, b, c);
    }
    forall c | c in b
      ensures c in a
    {
      SameCandidate(db, owner, now, b, a, c);
    }
    DistinctSameMembers(a, b);
    AnswerHasNoTies(db, owner, now, a);
    SortedUnique(a, b, CandLeq);
  }

  lemma AnswerHasNoTies(db: Db, owner: string, now: int, a: seq<Cand>)
    requires WalletAnswer(db, owner, now, a)
    ensures NoTies(a, CandLeq)
  {
    forall c, d | c in a && d in a && CandLeq(c, d) && CandLeq(d, c)
      ensures c == d
    {
      LessTrichotomy(c.id, d.id);
      var i :| 0 <= i < |a| && a[i] == c;
      var j :| 0 <= j < |a| && a[j] == d;
      assert a[i].id == a[j].id;
    }
  }

  lemma SameCandidate(db: Db, owner: string, now: int, a: seq<Cand>, b: seq<Cand>, c: Cand)
    requires WalletAnswer(db, owner, now, a) && WalletAnswer(db, owner, now, b) && c in a
    ensures c in b
  {
    var i :| 0 <= i < |a| && a[i] == c;
    assert Eligible(db, owner, now, c.id);
    var j :| 0 <= j < |b| && b[j].id == c.id;
    HorizonIsUnique(db.txs, c.id, now, c.horizon, b[j].horizon);
    assert b[j] == c;
  }

  lemma HorizonIsUnique(txs: seq<Tx>, node: string, now: int, h: Option<int>, g: Option<int>)
    requires IsHorizon(txs, node, now, h) && IsHorizon(txs, node, now, g)
    ensures h == g
  {
  }
}
