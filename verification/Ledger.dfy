/**
 The credit ledger: balances, holds and the transaction log, and the five statements and
 transactions that change them.

 A transaction reads one snapshot of the database and later writes to the database as it is by
 then, guarded by the `version` column. `RunTx(op, snap, cur)` is one such transaction: every
 SELECT reads `snap`, every UPDATE and INSERT acts on `cur`. Running it with `snap == cur` is
 running it alone (`Atomic`). `Run` interleaves any number of transactions in any order.
 */
module Ledger {
  import opened Common

  type AccountId = string
  type HoldId = string

  datatype HoldStatus = Held | Settled | Released

  datatype CreditRow = CreditRow(balance: int, held: int, version: int)

  datatype Hold = Hold(account: AccountId, amount: int, status: HoldStatus)

  datatype TxRow = TxRow(account: AccountId, delta: int, balanceAfter: int,
                         reason: Option<string>, operator: Option<string>)

  datatype Database = Database(credits: map<AccountId, CreditRow>, holds: map<HoldId, Hold>, log: seq<TxRow>)

  datatype Op =
    | Init(account: AccountId)
    | Adjust(account: AccountId, delta: int, reason: Option<string>, operator: Option<string>)
    | PlaceHold(account: AccountId, amount: int, holdId: HoldId)
    | SettleHold(holdId: HoldId, actualCost: int)
    | ReleaseHold(holdId: HoldId)

  datatype Answer = Ready | Balance(balance: int) | Placed(holdId: HoldId, version: int)

  /** `Refused` and `Lost` both reach the caller as `None`; `Failed` is a database error. */
  datatype Outcome = Done(answer: Answer) | Refused | Lost | Failed

  datatype Result = Result(db: Database, outcome: Outcome)

  const EMPTY := Database(map[], map[], [])

  /** The `WHERE account_id = ? AND version = ?` of every UPDATE. */
  predicate VersionHolds(db: Database, account: AccountId, version: int) {
    account in db.credits && db.credits[account].version == version
  }

  function RunInit(cur: Database, account: AccountId): Result {
    var row := if account in cur.credits then cur.credits[account] else CreditRow(0, 0, 0);
    Result(cur.(credits := cur.credits[account := row]), Done(Ready))
  }

  function RunAdjust(snap: Database, cur: Database, account: AccountId, delta: int,
                     reason: Option<string>, operator: Option<string>): Result
  {
    if account !in snap.credits then Result(cur, Refused)
    else
      var row := snap.credits[account];
      var newBalance := WrapI64(row.balance + delta);
      if newBalance < 0 then Result(cur, Refused)
      else if !VersionHolds(cur, account, row.version) then Result(cur, Lost)
      else
        var updated := cur.credits[account].(balance := newBalance, version := row.version + 1);
        Result(cur.(credits := cur.credits[account := updated],
                    log := cur.log + [TxRow(account, delta, newBalance, reason, operator)]),
               Done(Balance(newBalance)))
  }

  function RunPlaceHold(snap: Database, cur: Database, account: AccountId, amount: int, holdId: HoldId): Result {
    if account !in snap.credits then Result(cur, Refused)
    else
      var row := snap.credits[account];
      if row.balance < amount then Result(cur, Refused)
      else if !VersionHolds(cur, account, row.version) then Result(cur, Lost)
      else if holdId in cur.holds then Result(cur, Failed)
      else
        var now := cur.credits[account];
        var updated := CreditRow(now.balance - amount, now.held + amount, row.version + 1);
        Result(cur.(credits := cur.credits[account := updated],
                    holds := cur.holds[holdId := Hold(account, amount, Held)]),
               Done(Placed(holdId, row.version + 1)))
  }

  function RunSettleHold(snap: Database, cur: Database, holdId: HoldId, actualCost: int): Result {
    if holdId !in snap.holds || snap.holds[holdId].status != Held then Result(cur, Refused)
    else
      var hold := snap.holds[holdId];
      var refund := WrapI64(hold.amount - actualCost);
      if hold.account !in snap.credits then Result(cur, Failed)
      else
        var row := snap.credits[hold.account];
        var newHeld := WrapI64(row.held - hold.amount);
        var newBalance := WrapI64(row.balance + refund);
        if newBalance < 0 || newHeld < 0 then Result(cur, Refused)
        else if !VersionHolds(cur, hold.account, row.version) then Result(cur, Lost)
        else
          var updated := CreditRow(newBalance, newHeld, row.version + 1);
          var charge := TxRow(hold.account, WrapI64(-actualCost), newBalance, Some("usage"), Some("system"));
          Result(Database(cur.credits[hold.account := updated],
                          WithStatus(cur.holds, holdId, Settled),
                          cur.log + [charge]),
                 Done(Balance(newBalance)))
  }

  function RunReleaseHold(snap: Database, cur: Database, holdId: HoldId): Result {
    if holdId !in snap.holds || snap.holds[holdId].status != Held then Result(cur, Refused)
    else
      var hold := snap.holds[holdId];
      if hold.account !in snap.credits then Result(cur, Failed)
      else
        var row := snap.credits[hold.account];
        if !VersionHolds(cur, hold.account, row.version) then Result(cur, Lost)
        else
          var newBalance := WrapI64(row.balance + hold.amount);
          var updated := CreditRow(newBalance, WrapI64(row.held - hold.amount), row.version + 1);
          Result(cur.(credits := cur.credits[hold.account := updated],
                      holds := WithStatus(cur.holds, holdId, Released)),
                 Done(Balance(newBalance)))
  }

  /** `UPDATE credit_holds SET status = ? WHERE id = ?`: not conditional on the present status. */
  function WithStatus(holds: map<HoldId, Hold>, holdId: HoldId, status: HoldStatus): map<HoldId, Hold> {
    if holdId in holds then holds[holdId := holds[holdId].(status := status)] else holds
  }

  function RunTx(op: Op, snap: Database, cur: Database): Result {
    match op
    case Init(account) => RunInit(cur, account)
    case Adjust(account, delta, reason, operator) => RunAdjust(snap, cur, account, delta, reason, operator)
    case PlaceHold(account, amount, holdId) => RunPlaceHold(snap, cur, account, amount, holdId)
    case SettleHold(holdId, actualCost) => RunSettleHold(snap, cur, holdId, actualCost)
    case ReleaseHold(holdId) => RunReleaseHold(snap, cur, holdId)
  }

  function Atomic(op: Op, db: Database): Result {
    RunTx(op, db, db)
  }

  /** Running `ops` one after the other, each alone. */
  function Replay(ops: seq<Op>, db: Database): Database {
    if ops == [] then db
    else Atomic(ops[|ops| - 1], Replay(ops[..|ops| - 1], db)).db
  }

  /** Each of `ops` is accepted when they run one after the other. */
  predicate AllAccepted(ops: seq<Op>, db: Database) {
    ops == [] ||
    (AllAccepted(ops[..|ops| - 1], db) && Atomic(ops[|ops| - 1], Replay(ops[..|ops| - 1], db)).outcome.Done?)
  }

  lemma {:induction false} ReplayAppend(ops: seq<Op>, more: seq<Op>, db: Database)
    ensures Replay(ops + more, db) == Replay(more, Replay(ops, db))
    decreases |more|
  {
    if more == [] {
      assert ops + more == ops;
    } else {
      var init := more[..|more| - 1];
      assert (ops + more)[..|ops + more| - 1] == ops + init;
      ReplayAppend(ops, init, db);
    }
  }

  // ----- what a version number vouches for -----

  /** Every hold belongs to an account that has a balance row. */
  ghost predicate WellFormed(db: Database) {
    forall h :: h in db.holds ==> db.holds[h].account in db.credits
  }

  /** The two databases agree on everything recorded about account `a`. */
  ghost predicate SameAccount(before: Database, after: Database, a: AccountId)
    requires a in before.credits && a in after.credits
  {
    && before.credits[a] == after.credits[a]
    && (forall h :: h in before.holds && before.holds[h].account == a
                    ==> h in after.holds && after.holds[h] == before.holds[h])
    && (forall h :: h in after.holds && after.holds[h].account == a ==> h in before.holds)
  }

  /** A hold keeps its account and amount for ever, and its status once it has left `Held`. */
  ghost predicate HoldsKept(before: Database, after: Database) {
    forall h :: h in before.holds ==>
      && h in after.holds
      && after.holds[h].account == before.holds[h].account
      && after.holds[h].amount == before.holds[h].amount
      && (before.holds[h].status != Held ==> after.holds[h].status == before.holds[h].status)
  }

  /**
   `after` may lie later in a run than `before`. Versions only grow, and an unchanged version
   vouches for the account's balance row and for all of its holds.
   */
  ghost predicate Extends(before: Database, after: Database) {
    && (forall a :: a in before.credits ==>
          && a in after.credits
          && before.credits[a].version <= after.credits[a].version
          && (before.credits[a].version == after.credits[a].version ==> SameAccount(before, after, a)))
    && HoldsKept(before, after)
    && before.log <= after.log
  }

  lemma ExtendsTransitive(first: Database, second: Database, third: Database)
    requires Extends(first, second) && Extends(second, third)
    ensures Extends(first, third)
  {
    forall a | a in first.credits && first.credits[a].version == third.credits[a].version
      ensures SameAccount(first, third, a)
    {
      assert SameAccount(first, second, a) && SameAccount(second, third, a);
    }
  }

  lemma AtomicKeepsHolds(op: Op, db: Database)
    requires WellFormed(db)
    ensures WellFormed(Atomic(op, db).db) && HoldsKept(db, Atomic(op, db).db) && db.log <= Atomic(op, db).db.log
  {
  }

  lemma AtomicKeepsVersion(op: Op, db: Database, a: AccountId)
    requires WellFormed(db) && a in db.credits
    ensures var after := Atomic(op, db).db;
            && a in after.credits && db.credits[a].version <= after.credits[a].version
            && (db.credits[a].version == after.credits[a].version ==> SameAccount(db, after, a))
  {
  }

  /** One transaction run alone moves the database forward in the sense of `Extends`. */
  lemma AtomicExtends(op: Op, db: Database)
    requires WellFormed(db)
    ensures WellFormed(Atomic(op, db).db) && Extends(db, Atomic(op, db).db)
  {
    AtomicKeepsHolds(op, db);
    forall a | a in db.credits
      ensures a in Atomic(op, db).db.credits && db.credits[a].version <= Atomic(op, db).db.credits[a].version
      ensures db.credits[a].version == Atomic(op, db).db.credits[a].version ==> SameAccount(db, Atomic(op, db).db, a)
    {
      AtomicKeepsVersion(op, db, a);
    }
  }

  lemma {:induction false} ReplayExtends(ops: seq<Op>, db: Database)
    requires WellFormed(db)
    ensures WellFormed(Replay(ops, db)) && Extends(db, Replay(ops, db))
  {
    if ops != [] {
      var before := Replay(ops[..|ops| - 1], db);
      ReplayExtends(ops[..|ops| - 1], db);
      AtomicExtends(ops[|ops| - 1], before);
      ExtendsTransitive(db, before, Replay(ops, db));
    }
  }

  lemma SnapshotHoldIsCurrent(h: HoldId, snap: Database, cur: Database)
    requires Extends(snap, cur)
    ensures h in snap.holds && snap.holds[h].account in snap.credits
            && VersionHolds(cur, snap.holds[h].account, snap.credits[snap.holds[h].account].version)
            ==> h in cur.holds && cur.holds[h] == snap.holds[h]
                && cur.credits[snap.holds[h].account] == snap.credits[snap.holds[h].account]
  {
    if h in snap.holds && snap.holds[h].account in snap.credits
       && VersionHolds(cur, snap.holds[h].account, snap.credits[snap.holds[h].account].version) {
      assert SameAccount(snap, cur, snap.holds[h].account);
    }
  }

  lemma ResolutionCommits(op: Op, snap: Database, cur: Database)
    requires (op.SettleHold? || op.ReleaseHold?) && Extends(snap, cur) && RunTx(op, snap, cur).outcome.Done?
    ensures RunTx(op, snap, cur) == Atomic(op, cur)
  {
    SnapshotHoldIsCurrent(op.holdId, snap, cur);
  }

  lemma RowCommits(op: Op, snap: Database, cur: Database)
    requires (op.Adjust? || op.PlaceHold?) && Extends(snap, cur) && RunTx(op, snap, cur).outcome.Done?
    ensures RunTx(op, snap, cur) == Atomic(op, cur)
  {
    assert SameAccount(snap, cur, op.account);
  }

  lemma OthersChangeNothing(op: Op, snap: Database, cur: Database)
    ensures !RunTx(op, snap, cur).outcome.Done? ==> RunTx(op, snap, cur).db == cur
    ensures RunTx(op, snap, cur).outcome.Refused? ==> Atomic(op, snap) == Result(snap, Refused)
  {
  }

  /**
   A transaction that read an old snapshot and still got through its version check has done, to
   the present database, exactly what it would have done alone, with the same answer. One that
   did not get through has changed nothing.
   */
  lemma CommitIsAtomic(op: Op, snap: Database, cur: Database)
    requires Extends(snap, cur)
    ensures RunTx(op, snap, cur).outcome.Done? ==> RunTx(op, snap, cur) == Atomic(op, cur)
    ensures !RunTx(op, snap, cur).outcome.Done? ==> RunTx(op, snap, cur).db == cur
    ensures RunTx(op, snap, cur).outcome.Refused? ==> Atomic(op, snap) == Result(snap, Refused)
  {
    OthersChangeNothing(op, snap, cur);
    if RunTx(op, snap, cur).outcome.Done? {
      if op.SettleHold? || op.ReleaseHold? {
        ResolutionCommits(op, snap, cur);
      } else if op.Adjust? || op.PlaceHold? {
        RowCommits(op, snap, cur);
      }
    }
  }

  // ----- what a version number counts -----

  /** The operation is accepted and writes the balance row of account `a`. */
  predicate Writes(op: Op, db: Database, a: AccountId) {
    && Atomic(op, db).outcome.Done?
    && match op
       case Init(_) => false
       case Adjust(account, _, _, _) => account == a
       case PlaceHold(account, _, _) => account == a
       case SettleHold(h, _) => h in db.holds && db.holds[h].account == a
       case ReleaseHold(h) => h in db.holds && db.holds[h].account == a
  }

  /** How many of `ops`, run one after the other, write the balance row of account `a`. */
  function WritesTo(ops: seq<Op>, db: Database, a: AccountId): nat {
    if ops == [] then 0
    else
      var init := ops[..|ops| - 1];
      WritesTo(init, db, a) + (if Writes(ops[|ops| - 1], Replay(init, db), a) then 1 else 0)
  }

  lemma WriteRaisesVersion(op: Op, db: Database, a: AccountId)
    ensures a in db.credits ==> a in Atomic(op, db).db.credits
    ensures a in db.credits
            ==> Atomic(op, db).db.credits[a].version == db.credits[a].version + (if Writes(op, db, a) then 1 else 0)
    ensures a !in db.credits ==> !Writes(op, db, a)
    ensures a !in db.credits && a in Atomic(op, db).db.credits ==> Atomic(op, db).db.credits[a].version == 0
  {
  }

  /** An account's version is 0 at first and grows by one with each accepted operation on it, and with nothing else. */
  lemma {:induction false} VersionCountsWrites(ops: seq<Op>, db: Database, a: AccountId)
    ensures a in db.credits ==> a in Replay(ops, db).credits
    ensures a in Replay(ops, db).credits
            ==> Replay(ops, db).credits[a].version
                == (if a in db.credits then db.credits[a].version else 0) + WritesTo(ops, db, a)
    ensures a !in Replay(ops, db).credits ==> WritesTo(ops, db, a) == 0
  {
    if ops != [] {
      var init := ops[..|ops| - 1];
      VersionCountsWrites(init, db, a);
      WriteRaisesVersion(ops[|ops| - 1], Replay(init, db), a);
    }
  }

  // ----- when a transaction gets through -----

  /** What a transaction's SELECTs must find for it to go on to its UPDATEs. */
  predicate Affordable(op: Op, snap: Database) {
    match op
    case Init(_) => true
    case Adjust(a, delta, _, _) => a in snap.credits && 0 <= WrapI64(snap.credits[a].balance + delta)
    case PlaceHold(a, amount, _) => a in snap.credits && amount <= snap.credits[a].balance
    case SettleHold(h, cost) =>
      && h in snap.holds && snap.holds[h].status == Held && snap.holds[h].account in snap.credits
      && var row, amount := snap.credits[snap.holds[h].account], snap.holds[h].amount;
         0 <= WrapI64(row.balance + WrapI64(amount - cost)) && 0 <= WrapI64(row.held - amount)
    case ReleaseHold(h) => h in snap.holds && snap.holds[h].status == Held && snap.holds[h].account in snap.credits
  }

  /** An active hold whose account has no row: the SELECT of it is an error. In well-formed databases there is none. */
  predicate Orphaned(op: Op, snap: Database) {
    && (op.SettleHold? || op.ReleaseHold?)
    && op.holdId in snap.holds && snap.holds[op.holdId].status == Held
    && snap.holds[op.holdId].account !in snap.credits
  }

  /** The account whose row the transaction means to write. */
  function AccountOf(op: Op, snap: Database): AccountId {
    match op
    case Init(a) => a
    case Adjust(a, _, _, _) => a
    case PlaceHold(a, _, _) => a
    case SettleHold(h, _) => if h in snap.holds then snap.holds[h].account else ""
    case ReleaseHold(h) => if h in snap.holds then snap.holds[h].account else ""
  }

  /** Whether the account's version has moved since the snapshot. */
  predicate Moved(op: Op, snap: Database, cur: Database) {
    var a := AccountOf(op, snap);
    a in snap.credits && a in cur.credits && snap.credits[a].version != cur.credits[a].version
  }

  lemma OutcomeIff(op: Op, snap: Database, cur: Database)
    requires !op.Init? && Extends(snap, cur)
    ensures var outcome := RunTx(op, snap, cur).outcome;
            && (outcome.Refused? <==> !Affordable(op, snap) && !Orphaned(op, snap))
            && (outcome.Lost? <==> Affordable(op, snap) && Moved(op, snap, cur))
            && (outcome.Failed?
                <==> || Orphaned(op, snap)
                     || (Affordable(op, snap) && !Moved(op, snap, cur) && op.PlaceHold? && op.holdId in cur.holds))
  {
  }

  lemma MovedIff(op: Op, snap: Database, ops: seq<Op>)
    requires !op.Init? && WellFormed(snap) && Affordable(op, snap)
    ensures Moved(op, snap, Replay(ops, snap)) <==> WritesTo(ops, snap, AccountOf(op, snap)) > 0
  {
    VersionCountsWrites(ops, snap, AccountOf(op, snap));
  }

  /**
   What becomes of a transaction when `writes` operations on its own account were accepted between its
   snapshot and its commit. It is refused just if its snapshot does not afford it; lost just if it does
   and there was such an operation; and fails just if it would place a hold under an id that is taken
   by then. In every other case it gets through.
   */
  ghost predicate Decided(op: Op, snap: Database, cur: Database, writes: nat, outcome: Outcome) {
    && (outcome.Refused? <==> !Affordable(op, snap))
    && (outcome.Lost? <==> Affordable(op, snap) && writes > 0)
    && (outcome.Failed? <==> Affordable(op, snap) && writes == 0 && op.PlaceHold? && op.holdId in cur.holds)
    && (outcome.Done? <==> Affordable(op, snap) && writes == 0 && (op.PlaceHold? ==> op.holdId !in cur.holds))
  }

  /** Whatever happens to other accounts while it runs decides nothing. */
  lemma GetsThroughIff(op: Op, snap: Database, ops: seq<Op>)
    requires !op.Init? && WellFormed(snap)
    ensures var cur := Replay(ops, snap);
            Decided(op, snap, cur, WritesTo(ops, snap, AccountOf(op, snap)), RunTx(op, snap, cur).outcome)
  {
    ReplayExtends(ops, snap);
    OutcomeIff(op, snap, Replay(ops, snap));
    if Affordable(op, snap) {
      MovedIff(op, snap, ops);
    }
  }

  // ----- interleavings -----

  datatype Txn = Txn(op: Op, snapshot: Database)

  /** The shared database, the transactions now open, and the operations committed so far in order. */
  datatype System = System(db: Database, open: map<nat, Txn>, committed: seq<Op>)

  datatype Step = Begin(id: nat, op: Op) | Commit(id: nat) | Abort(id: nat)

  const START := System(EMPTY, map[], [])

  function Next(s: System, step: Step): System {
    match step
    case Begin(id, op) =>
      if id in s.open then s else s.(open := s.open[id := Txn(op, s.db)])
    case Commit(id) =>
      if id !in s.open then s
      else
        var r := RunTx(s.open[id].op, s.open[id].snapshot, s.db);
        System(r.db, s.open - {id}, if r.outcome.Done? then s.committed + [s.open[id].op] else s.committed)
    case Abort(id) => s.(open := s.open - {id})
  }

  function Run(steps: seq<Step>): System {
    if steps == [] then START else Next(Run(steps[..|steps| - 1]), steps[|steps| - 1])
  }

  ghost predicate SnapshotsExtend(s: System) {
    WellFormed(s.db) && forall id :: id in s.open ==> Extends(s.open[id].snapshot, s.db)
  }

  /** Whatever the interleaving, every open snapshot is related to the present by `Extends`. */
  lemma {:induction false} RunKeepsSnapshots(steps: seq<Step>)
    ensures SnapshotsExtend(Run(steps))
  {
    if steps != [] {
      RunKeepsSnapshots(steps[..|steps| - 1]);
      var s := Run(steps[..|steps| - 1]);
      match steps[|steps| - 1] {
        case Begin(_, _) =>
        case Abort(_) =>
        case Commit(id) =>
          if id in s.open {
            CommitIsAtomic(s.open[id].op, s.open[id].snapshot, s.db);
            AtomicExtends(s.open[id].op, s.db);
            forall other | other in s.open - {id}
              ensures Extends(s.open[other].snapshot, Run(steps).db)
            {
              ExtendsTransitive(s.open[other].snapshot, s.db, Run(steps).db);
            }
          }
      }
    }
  }

  /**
   Serializability. Every interleaving leaves exactly the database that its committed operations
   leave when they run alone in commit order, and each of them is accepted in that serial run.
   */
  lemma {:induction false} Serializable(steps: seq<Step>)
    ensures Run(steps).db == Replay(Run(steps).committed, EMPTY)
    ensures AllAccepted(Run(steps).committed, EMPTY)
  {
    if steps != [] {
      var s := Run(steps[..|steps| - 1]);
      Serializable(steps[..|steps| - 1]);
      RunKeepsSnapshots(steps[..|steps| - 1]);
      var step := steps[|steps| - 1];
      if step.Commit? && step.id in s.open {
        CommitIsAtomic(s.open[step.id].op, s.open[step.id].snapshot, s.db);
        assert (s.committed + [s.open[step.id].op])[..|s.committed|] == s.committed;
      }
    }
  }

  /** None of these steps ends transaction `id`. */
  predicate StaysOpen(steps: seq<Step>, id: nat) {
    forall i :: 0 <= i < |steps| ==> steps[i] != Commit(id) && steps[i] != Abort(id)
  }

  /** The operation that this step commits, if any. */
  function CommittedBy(s: System, step: Step): (ops: seq<Op>)
    ensures Next(s, step).committed == s.committed + ops
  {
    if step.Commit? && step.id in s.open && RunTx(s.open[step.id].op, s.open[step.id].snapshot, s.db).outcome.Done? then
      [s.open[step.id].op]
    else []
  }

  lemma StepReplays(s: System, step: Step)
    requires SnapshotsExtend(s)
    ensures Next(s, step).db == Replay(CommittedBy(s, step), s.db)
  {
    if step.Commit? && step.id in s.open {
      CommitIsAtomic(s.open[step.id].op, s.open[step.id].snapshot, s.db);
      assert [s.open[step.id].op][..0] == [];
    }
  }

  lemma RunStep(before: seq<Step>, steps: seq<Step>)
    requires steps != []
    ensures var init := steps[..|steps| - 1];
            Run(before + steps) == Next(Run(before + init), steps[|steps| - 1])
  {
    assert (before + steps)[..|before + steps| - 1] == before + steps[..|steps| - 1];
  }

  /** The operations that any transactions have committed during `steps`, which follow `before`. */
  function CommittedDuring(before: seq<Step>, steps: seq<Step>): (ops: seq<Op>)
    ensures Run(before + steps).committed == Run(before).committed + ops
  {
    if steps == [] then assert before + steps == before; []
    else
      var init := steps[..|steps| - 1];
      RunStep(before, steps);
      CommittedDuring(before, init) + CommittedBy(Run(before + init), steps[|steps| - 1])
  }

  /** Whatever is run in between, the present database is the old one with the committed operations replayed. */
  lemma {:induction false} ReplayedDuring(before: seq<Step>, steps: seq<Step>)
    ensures Run(before + steps).db == Replay(CommittedDuring(before, steps), Run(before).db)
  {
    if steps == [] {
      assert before + steps == before;
    } else {
      var init, last := steps[..|steps| - 1], steps[|steps| - 1];
      var s := Run(before + init);
      ReplayedDuring(before, init);
      RunKeepsSnapshots(before + init);
      StepReplays(s, last);
      RunStep(before, steps);
      ReplayAppend(CommittedDuring(before, init), CommittedBy(s, last), Run(before).db);
    }
  }

  lemma {:induction false} SnapshotKept(before: seq<Step>, steps: seq<Step>, id: nat)
    requires id in Run(before).open && StaysOpen(steps, id)
    ensures id in Run(before + steps).open && Run(before + steps).open[id] == Run(before).open[id]
  {
    if steps == [] {
      assert before + steps == before;
    } else {
      SnapshotKept(before, steps[..|steps| - 1], id);
      RunStep(before, steps);
    }
  }

  lemma CommitStep(steps: seq<Step>, id: nat)
    requires id in Run(steps).open
    ensures var s := Run(steps);
            var t := s.open[id];
            Run(steps + [Commit(id)]).committed
            == if RunTx(t.op, t.snapshot, s.db).outcome.Done? then s.committed + [t.op] else s.committed
  {
    assert (steps + [Commit(id)])[..|steps|] == steps;
  }

  lemma BeginStep(before: seq<Step>, id: nat, op: Op)
    requires id !in Run(before).open
    ensures var s := Run(before + [Begin(id, op)]);
            s.db == Run(before).db && id in s.open && s.open[id] == Txn(op, Run(before).db)
  {
    assert (before + [Begin(id, op)])[..|before|] == before;
  }

  /**
   Optimistic locking, exactly. In every interleaving a transaction that comes to commit is refused if
   and only if what it read does not afford it, and lost if and only if it does and an operation on its
   own account was committed since it began. It commits in every other case, unless it would place a
   hold under an id taken by then.
   */
  lemma CommitIff(before: seq<Step>, id: nat, op: Op, steps: seq<Step>)
    requires !op.Init? && id !in Run(before).open && StaysOpen(steps, id)
    ensures var begun := before + [Begin(id, op)];
            var (snap, s) := (Run(before).db, Run(begun + steps));
            var outcome := RunTx(op, snap, s.db).outcome;
            && Decided(op, snap, s.db, WritesTo(CommittedDuring(begun, steps), snap, AccountOf(op, snap)), outcome)
            && Run(begun + steps + [Commit(id)]).committed == if outcome.Done? then s.committed + [op] else s.committed
  {
    var begun := before + [Begin(id, op)];
    BeginStep(before, id, op);
    SnapshotKept(begun, steps, id);
    ReplayedDuring(begun, steps);
    RunKeepsSnapshots(before);
    GetsThroughIff(op, Run(before).db, CommittedDuring(begun, steps));
    CommitStep(begun + steps, id);
  }

  // ----- exactly-once resolution -----

  function CountOf(ops: seq<Op>, op: Op -> bool): nat {
    if ops == [] then 0 else CountOf(ops[..|ops| - 1], op) + (if op(ops[|ops| - 1]) then 1 else 0)
  }

  function Places(ops: seq<Op>, h: HoldId): nat {
    CountOf(ops, (op: Op) => op.PlaceHold? && op.holdId == h)
  }

  function Settlements(ops: seq<Op>, h: HoldId): nat {
    CountOf(ops, (op: Op) => op.SettleHold? && op.holdId == h)
  }

  function Releases(ops: seq<Op>, h: HoldId): nat {
    CountOf(ops, (op: Op) => op.ReleaseHold? && op.holdId == h)
  }

  /** How often `h` was placed, settled and released is exactly what its row says. */
  ghost predicate ResolvedOnce(db: Database, ops: seq<Op>, h: HoldId) {
    && Places(ops, h) == (if h in db.holds then 1 else 0)
    && Settlements(ops, h) == (if h in db.holds && db.holds[h].status == Settled then 1 else 0)
    && Releases(ops, h) == (if h in db.holds && db.holds[h].status == Released then 1 else 0)
  }

  lemma {:induction false} SerialResolvesOnce(ops: seq<Op>, h: HoldId)
    requires AllAccepted(ops, EMPTY)
    ensures ResolvedOnce(Replay(ops, EMPTY), ops, h)
  {
    if ops != [] {
      SerialResolvesOnce(ops[..|ops| - 1], h);
    }
  }

  /**
   Exactly once. In every interleaving a hold is placed at most once and resolved at most once;
   it is never both settled and released, and its status tells which happened.
   */
  lemma ExactlyOnce(steps: seq<Step>, h: HoldId)
    ensures ResolvedOnce(Run(steps).db, Run(steps).committed, h)
    ensures Settlements(Run(steps).committed, h) + Releases(Run(steps).committed, h) <= 1
  {
    Serializable(steps);
    SerialResolvesOnce(Run(steps).committed, h);
  }
}
