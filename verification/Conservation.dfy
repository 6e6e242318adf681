/**
 What the ledger's columns mean at every moment of every interleaving: `balance` never goes
 negative, `held` is the sum of the account's active holds, and `balance + held` is the sum of
 the account's transaction log.
 */
module Conservation {
  import opened Common
  import opened Ledger

  /** The amounts of the holds that the active-holds query returns for account `a`. */
  ghost function ActiveHolds(db: Database, a: AccountId): map<HoldId, int> {
    map h | h in db.holds && db.holds[h].account == a && db.holds[h].status == Held :: db.holds[h].amount
  }

  /** The sum of `delta` over the log rows of account `a`. */
  function SumDeltas(log: seq<TxRow>, a: AccountId): int {
    if log == [] then 0
    else SumDeltas(log[..|log| - 1], a) + (if log[|log| - 1].account == a then log[|log| - 1].delta else 0)
  }

  function Total(db: Database, a: AccountId): int {
    if a in db.credits then db.credits[a].balance + db.credits[a].held else 0
  }

  ghost predicate AccountConserved(db: Database, a: AccountId)
    requires a in db.credits
  {
    && 0 <= db.credits[a].balance
    && db.credits[a].held == SumOver(ActiveHolds(db, a))
    && Total(db, a) == SumDeltas(db.log, a)
  }

  ghost predicate Conserved(db: Database) {
    && WellFormed(db)
    && (forall h :: h in db.holds ==> 0 <= db.holds[h].amount)
    && (forall a :: a in db.credits ==> AccountConserved(db, a))
    && (forall a :: a !in db.credits ==> SumDeltas(db.log, a) == 0)
  }

  /** The arguments the callers pass: hold amounts and final costs are never negative. */
  predicate Legal(op: Op) {
    match op
    case Adjust(_, delta, _, _) => IsI64(delta)
    case PlaceHold(_, amount, _) => 0 <= amount <= I64_MAX
    case SettleHold(_, cost) => 0 <= cost <= I64_MAX
    case _ => true
  }

  /** What the arithmetic done on `i64` always keeps: no balance and no active hold is beyond one. */
  ghost predicate Bounded(db: Database) {
    && (forall a :: a in db.credits ==> db.credits[a].balance <= I64_MAX)
    && (forall h :: h in db.holds && db.holds[h].status == Held ==> db.holds[h].amount <= I64_MAX)
  }

  /** The operation is accepted and settles or releases a hold. */
  predicate Resolves(op: Op, db: Database) {
    && (op.SettleHold? || op.ReleaseHold?) && Atomic(op, db).outcome.Done?
  }

  /** The guard: resolving a hold leaves a balance, and an amount still held, that an `i64` can take. */
  predicate Fits(op: Op, db: Database) {
    Resolves(op, db) ==>
      var hold := db.holds[op.holdId];
      var row := db.credits[hold.account];
      && row.held - hold.amount <= I64_MAX
      && (op.ReleaseHold? ==> row.balance + hold.amount <= I64_MAX)
  }

  /** Every operation of a serial run meets the guard when its turn comes. */
  ghost predicate Guarded(ops: seq<Op>) {
    ops == [] || (Guarded(ops[..|ops| - 1]) && Fits(ops[|ops| - 1], Replay(ops[..|ops| - 1], EMPTY)))
  }

  /** No account has more credits, held or not, than an `i64` can count. */
  ghost predicate Counted(db: Database) {
    forall a :: a in db.credits ==> Total(db, a) <= I64_MAX
  }

  /** No adjustment that is accepted lifts its account's `balance + held` beyond an `i64`. */
  ghost predicate Countable(ops: seq<Op>) {
    ops == [] ||
    var before, op := Replay(ops[..|ops| - 1], EMPTY), ops[|ops| - 1];
    && Countable(ops[..|ops| - 1])
    && (op.Adjust? && Atomic(op, before).outcome.Done? ==> Total(before, op.account) + op.delta <= I64_MAX)
  }

  lemma SumDeltasAppend(log: seq<TxRow>, row: TxRow, a: AccountId)
    ensures SumDeltas(log + [row], a) == SumDeltas(log, a) + (if row.account == a then row.delta else 0)
  {
    assert (log + [row])[..|log|] == log;
  }

  /** Writing one hold row moves the sum of its account's active holds by that row's share alone. */
  lemma ActiveHoldsWrite(db: Database, after: Database, h: HoldId, hold: Hold, a: AccountId)
    requires after.holds == db.holds[h := hold]
    requires h in db.holds ==> db.holds[h].account == hold.account && db.holds[h].amount == hold.amount
    ensures SumOver(ActiveHolds(after, a)) == SumOver(ActiveHolds(db, a))
              + (if hold.account == a && hold.status == Held then hold.amount else 0)
              - (if hold.account == a && h in db.holds && db.holds[h].status == Held then hold.amount else 0)
  {
    var before, now := ActiveHolds(db, a), ActiveHolds(after, a);
    if hold.account == a && hold.status == Held {
      assert now == before[h := hold.amount];
      SumOverUpdate(before, h, hold.amount);
    } else if h in before {
      SumOverSplit(before, h);
      assert now == before - {h};
    } else {
      assert now == before;
    }
  }

  /** An active hold is covered by its account's `held` column. */
  lemma ActiveHoldIsCovered(db: Database, h: HoldId)
    requires Conserved(db) && h in db.holds && db.holds[h].status == Held
    ensures 0 <= db.holds[h].amount <= db.credits[db.holds[h].account].held
  {
    var a := db.holds[h].account;
    assert AccountConserved(db, a);
    SumOverBounds(ActiveHolds(db, a));
    assert h in ActiveHolds(db, a);
  }

  lemma HeldIsNonNegative(db: Database, a: AccountId)
    requires Conserved(db) && a in db.credits
    ensures 0 <= db.credits[a].held
  {
    assert AccountConserved(db, a);
    SumOverBounds(ActiveHolds(db, a));
  }

  /** How much an operation, run alone, moves the sum of an account's log. */
  function Charge(op: Op, db: Database, a: AccountId): int {
    if !Atomic(op, db).outcome.Done? then 0
    else
      match op
      case Adjust(account, delta, _, _) => if account == a then delta else 0
      case SettleHold(h, cost) => if h in db.holds && db.holds[h].account == a then -cost else 0
      case _ => 0
  }

  // ----- one operation -----

  lemma AtomicBounded(op: Op, db: Database)
    requires Bounded(db) && Legal(op)
    ensures Bounded(Atomic(op, db).db)
  {
  }

  lemma InitConserves(op: Op, db: Database)
    requires op.Init? && Conserved(db)
    ensures Conserved(Atomic(op, db).db)
    ensures forall a :: Total(Atomic(op, db).db, a) == Total(db, a)
  {
    var after := Atomic(op, db).db;
    forall a | a in after.credits
      ensures AccountConserved(after, a)
    {
      assert ActiveHolds(after, a) == ActiveHolds(db, a);
      if a in db.credits {
        assert AccountConserved(db, a);
      } else {
        assert ActiveHolds(db, a) == map[];
      }
    }
  }

  /** An accepted adjustment writes its exact sum: one that overflows is refused as if it were negative. */
  lemma AdjustIsExact(op: Op, db: Database)
    requires op.Adjust? && Conserved(db) && Bounded(db) && Legal(op) && Atomic(op, db).outcome.Done?
    ensures op.account in db.credits
    ensures var row, after := db.credits[op.account], Atomic(op, db).db;
            && after.credits == db.credits[op.account := CreditRow(row.balance + op.delta, row.held, row.version + 1)]
            && after.holds == db.holds
            && after.log == db.log + [TxRow(op.account, op.delta, row.balance + op.delta, op.reason, op.operator)]
            && 0 <= row.balance + op.delta
  {
    assert AccountConserved(db, op.account);
  }

  lemma AdjustConserves(op: Op, db: Database)
    requires op.Adjust? && Conserved(db) && Bounded(db) && Legal(op) && Atomic(op, db).outcome.Done?
    ensures Conserved(Atomic(op, db).db)
    ensures forall a :: Total(Atomic(op, db).db, a) == Total(db, a) + Charge(op, db, a)
  {
    AdjustIsExact(op, db);
    Written(db, Atomic(op, db).db, op.account, op.delta);
  }

  lemma PlaceConserves(op: Op, db: Database)
    requires op.PlaceHold? && Conserved(db) && Legal(op) && Atomic(op, db).outcome.Done?
    ensures Conserved(Atomic(op, db).db)
    ensures forall a :: Total(Atomic(op, db).db, a) == Total(db, a)
  {
    var after := Atomic(op, db).db;
    forall a | a in after.credits
      ensures AccountConserved(after, a)
    {
      assert AccountConserved(db, a);
      ActiveHoldsWrite(db, after, op.holdId, Hold(op.account, op.amount, Held), a);
    }
  }

  /** What resolving a hold takes from the account for good. */
  function Cost(op: Op): int {
    if op.SettleHold? then op.actualCost else 0
  }

  /** What an accepted settlement or release writes, overflow included. */
  lemma ResolvesMeans(op: Op, db: Database)
    requires Resolves(op, db)
    ensures op.holdId in db.holds && db.holds[op.holdId].status == Held && db.holds[op.holdId].account in db.credits
    ensures var hold, after := db.holds[op.holdId], Atomic(op, db).db;
            var row := db.credits[hold.account];
            var back := hold.amount - Cost(op);
            && after.holds == db.holds[op.holdId := hold.(status := if op.SettleHold? then Settled else Released)]
            && after.credits == db.credits[hold.account := CreditRow(WrapI64(row.balance + WrapI64(back)),
                                                                    WrapI64(row.held - hold.amount), row.version + 1)]
            && (op.SettleHold? ==> 0 <= WrapI64(row.balance + WrapI64(back)))
            && after.log == if op.SettleHold?
                            then db.log + [TxRow(hold.account, WrapI64(-op.actualCost), WrapI64(row.balance + WrapI64(back)),
                                                 Some("usage"), Some("system"))]
                            else db.log
  {
    var hold := db.holds[op.holdId];
    WrapSum(hold.amount, db.credits[hold.account].balance);
  }

  /** The numbers of resolving a hold, when they stay within an `i64` or are accepted all the same. */
  predicate InNumbers(balance: int, held: int, amount: int, cost: int) {
    && 0 <= balance <= I64_MAX && 0 <= amount <= held && 0 <= cost <= I64_MAX
    && amount <= I64_MAX && held - amount <= I64_MAX
    && (0 <= WrapI64(balance + WrapI64(amount - cost)) || (cost == 0 && balance + amount <= I64_MAX))
  }

  lemma NumbersFit(balance: int, held: int, amount: int, cost: int)
    requires InNumbers(balance, held, amount, cost)
    ensures WrapI64(balance + WrapI64(amount - cost)) == balance + amount - cost && 0 <= balance + amount - cost
    ensures WrapI64(held - amount) == held - amount
  {
  }

  /** What the guard says in numbers. */
  lemma GuardInNumbers(op: Op, db: Database)
    requires Resolves(op, db) && Conserved(db) && Bounded(db) && Legal(op) && Fits(op, db)
    ensures op.holdId in db.holds && db.holds[op.holdId].account in db.credits
    ensures var hold := db.holds[op.holdId];
            var row := db.credits[hold.account];
            InNumbers(row.balance, row.held, hold.amount, Cost(op))
  {
    ResolvesMeans(op, db);
    ActiveHoldIsCovered(db, op.holdId);
    assert AccountConserved(db, db.holds[op.holdId].account);
  }

  /** Within the guard nothing wraps. */
  lemma NothingWraps(op: Op, db: Database)
    requires Resolves(op, db) && Conserved(db) && Bounded(db) && Legal(op) && Fits(op, db)
    ensures op.holdId in db.holds && db.holds[op.holdId].account in db.credits
    ensures var hold := db.holds[op.holdId];
            var row := db.credits[hold.account];
            && WrapI64(row.balance + WrapI64(hold.amount - Cost(op))) == row.balance + hold.amount - Cost(op)
            && 0 <= row.balance + hold.amount - Cost(op)
            && WrapI64(row.held - hold.amount) == row.held - hold.amount
  {
    GuardInNumbers(op, db);
    var hold := db.holds[op.holdId];
    NumbersFit(db.credits[hold.account].balance, db.credits[hold.account].held, hold.amount, Cost(op));
  }

  lemma FittingIsExact(op: Op, db: Database)
    requires Resolves(op, db) && Conserved(db) && Bounded(db) && Legal(op) && Fits(op, db)
    ensures op.holdId in db.holds && db.holds[op.holdId].account in db.credits
    ensures var hold, after := db.holds[op.holdId], Atomic(op, db).db;
            var row := db.credits[hold.account];
            && after.credits == db.credits[hold.account := CreditRow(row.balance + hold.amount - Cost(op),
                                                                    row.held - hold.amount, row.version + 1)]
            && 0 <= row.balance + hold.amount - Cost(op)
  {
    NothingWraps(op, db);
    ResolvesMeans(op, db);
  }

  /** A settlement logs its price as a charge; a release logs nothing. */
  lemma ResolutionLog(op: Op, db: Database)
    requires Resolves(op, db) && Legal(op)
    ensures var after, hold := Atomic(op, db).db, db.holds[op.holdId];
            if op.SettleHold? then
              && |after.log| == |db.log| + 1 && after.log == db.log + [after.log[|db.log|]]
              && after.log[|db.log|].account == hold.account && after.log[|db.log|].delta == -op.actualCost
            else after.log == db.log
  {
  }

  /** One account's row written: its balance and log move by `delta` together, its holds not at all. */
  lemma Written(db: Database, after: Database, account: AccountId, delta: int)
    requires Conserved(db) && account in db.credits && account in after.credits && after.holds == db.holds
    requires after.credits == db.credits[account := after.credits[account]]
    requires 0 <= after.credits[account].balance == db.credits[account].balance + delta
    requires after.credits[account].held == db.credits[account].held
    requires |after.log| == |db.log| + 1 && after.log[..|db.log|] == db.log
    requires after.log[|db.log|].account == account && after.log[|db.log|].delta == delta
    ensures Conserved(after)
  {
    forall a
      ensures a in after.credits ==> AccountConserved(after, a)
      ensures a !in after.credits ==> SumDeltas(after.log, a) == 0
    {
      if a in db.credits {
        assert AccountConserved(db, a);
      }
      assert after.log == db.log + [after.log[|db.log|]];
      SumDeltasAppend(db.log, after.log[|db.log|], a);
      assert ActiveHolds(after, a) == ActiveHolds(db, a);
    }
  }

  lemma ResolutionLogs(op: Op, db: Database, a: AccountId)
    requires Resolves(op, db) && Conserved(db) && Bounded(db) && Legal(op) && Fits(op, db)
    ensures SumDeltas(Atomic(op, db).db.log, a) == SumDeltas(db.log, a) + Charge(op, db, a)
  {
    ResolvesMeans(op, db);
    ResolutionLog(op, db);
    if op.SettleHold? {
      SumDeltasAppend(db.log, Atomic(op, db).db.log[|db.log|], a);
    }
  }

  lemma ResolutionConserves(op: Op, db: Database)
    requires Resolves(op, db) && Conserved(db) && Bounded(db) && Legal(op) && Fits(op, db)
    ensures Conserved(Atomic(op, db).db)
  {
    ResolvesMeans(op, db);
    FittingIsExact(op, db);
    forall a {
      ResolutionLogs(op, db, a);
    }
    ResolutionKeepsBooks(db, Atomic(op, db).db, op.holdId, Cost(op));
  }

  lemma ResolutionMovesTotals(op: Op, db: Database, a: AccountId)
    requires Resolves(op, db) && Conserved(db) && Bounded(db) && Legal(op) && Fits(op, db)
    ensures Total(Atomic(op, db).db, a) == Total(db, a) + Charge(op, db, a)
  {
    ResolvesMeans(op, db);
    FittingIsExact(op, db);
  }

  /** The books once hold `h` has been resolved at price `cost`. */
  lemma ResolutionKeepsBooks(db: Database, after: Database, h: HoldId, cost: int)
    requires Conserved(db) && h in db.holds && db.holds[h].status == Held
    requires h in after.holds && after.holds[h].status != Held
    requires after.holds == db.holds[h := db.holds[h].(status := after.holds[h].status)]
    requires var a := db.holds[h].account;
             && a in after.credits && after.credits == db.credits[a := after.credits[a]]
             && 0 <= after.credits[a].balance == db.credits[a].balance + db.holds[h].amount - cost
             && after.credits[a].held == db.credits[a].held - db.holds[h].amount
    requires forall a :: SumDeltas(after.log, a) == SumDeltas(db.log, a) - (if a == db.holds[h].account then cost else 0)
    ensures Conserved(after)
  {
    forall a | a in after.credits
      ensures AccountConserved(after, a)
    {
      assert AccountConserved(db, a);
      ActiveHoldsWrite(db, after, h, after.holds[h], a);
      OneBookKept(db, after, db.holds[h], cost, a);
    }
  }

  lemma OneBookKept(db: Database, after: Database, hold: Hold, cost: int, a: AccountId)
    requires a in db.credits && a in after.credits && AccountConserved(db, a)
    requires if a == hold.account
             then && 0 <= after.credits[a].balance == db.credits[a].balance + hold.amount - cost
                  && after.credits[a].held == db.credits[a].held - hold.amount
             else after.credits[a] == db.credits[a]
    requires SumDeltas(after.log, a) == SumDeltas(db.log, a) - (if a == hold.account then cost else 0)
    requires SumOver(ActiveHolds(after, a)) == SumOver(ActiveHolds(db, a)) - (if a == hold.account then hold.amount else 0)
    ensures AccountConserved(after, a)
  {
  }

  /** Past the guard an account is left with a negative balance, or with less held than its holds come to. */
  lemma OverflowBreaks(op: Op, db: Database)
    requires Resolves(op, db) && Conserved(db) && Bounded(db) && Legal(op) && !Fits(op, db)
    ensures !Conserved(Atomic(op, db).db)
  {
    ResolvesMeans(op, db);
    ActiveHoldIsCovered(db, op.holdId);
    var hold, after := db.holds[op.holdId], Atomic(op, db).db;
    assert AccountConserved(db, hold.account);
    ActiveHoldsWrite(db, after, op.holdId, after.holds[op.holdId], hold.account);
    if op.ReleaseHold? && db.credits[hold.account].balance + hold.amount > I64_MAX {
      WrapTurn(db.credits[hold.account].balance + hold.amount - TWO_64);
    }
    assert !AccountConserved(after, hold.account);
  }

  /**
   When one operation conserves: exactly when it meets the guard. It then moves totals by its charge
   alone.
   */
  lemma AtomicConservesIff(op: Op, db: Database)
    requires Conserved(db) && Bounded(db) && Legal(op)
    ensures Conserved(Atomic(op, db).db) <==> Fits(op, db)
    ensures Fits(op, db) ==> forall a :: Total(Atomic(op, db).db, a) == Total(db, a) + Charge(op, db, a)
  {
    if Resolves(op, db) {
      if Fits(op, db) {
        ResolutionConserves(op, db);
        forall a {
          ResolutionMovesTotals(op, db, a);
        }
      } else {
        OverflowBreaks(op, db);
      }
    } else if Atomic(op, db).outcome.Done? {
      match op {
        case Init(_) => InitConserves(op, db);
        case Adjust(_, _, _, _) => AdjustConserves(op, db);
        case PlaceHold(_, _, _) => PlaceConserves(op, db);
        case _ =>
      }
    }
  }

  // ----- whole runs -----

  ghost predicate AllLegal(ops: seq<Op>) {
    forall op :: op in ops ==> Legal(op)
  }

  lemma LegalParts(ops: seq<Op>)
    requires AllLegal(ops) && ops != []
    ensures AllLegal(ops[..|ops| - 1]) && Legal(ops[|ops| - 1])
  {
    assert ops[|ops| - 1] in ops;
  }

  lemma {:induction false} SerialBounded(ops: seq<Op>)
    requires AllLegal(ops)
    ensures Bounded(Replay(ops, EMPTY))
  {
    if ops != [] {
      LegalParts(ops);
      SerialBounded(ops[..|ops| - 1]);
      AtomicBounded(ops[|ops| - 1], Replay(ops[..|ops| - 1], EMPTY));
    }
  }

  /** Run one by one, legal operations conserve every account as long as each meets the guard. */
  lemma {:induction false} SerialConserves(ops: seq<Op>)
    requires AllLegal(ops) && Guarded(ops)
    ensures Conserved(Replay(ops, EMPTY))
  {
    if ops != [] {
      LegalParts(ops);
      SerialConserves(ops[..|ops| - 1]);
      SerialBounded(ops[..|ops| - 1]);
      AtomicConservesIff(ops[|ops| - 1], Replay(ops[..|ops| - 1], EMPTY));
    }
  }

  lemma {:induction false} GuardedPrefix(ops: seq<Op>, n: nat)
    requires n <= |ops| && Guarded(ops)
    ensures Guarded(ops[..n])
    decreases |ops|
  {
    if n == |ops| {
      assert ops[..n] == ops;
    } else {
      GuardedPrefix(ops[..|ops| - 1], n);
      assert ops[..|ops| - 1][..n] == ops[..n];
    }
  }

  /** If the run so far conserved, one more operation conserves exactly if it meets the guard. */
  lemma NextConservesIff(ops: seq<Op>, op: Op)
    requires AllLegal(ops) && Guarded(ops) && Legal(op)
    ensures Guarded(ops + [op]) <==> Conserved(Atomic(op, Replay(ops, EMPTY)).db)
  {
    assert (ops + [op])[..|ops|] == ops;
    SerialConserves(ops);
    SerialBounded(ops);
    AtomicConservesIff(op, Replay(ops, EMPTY));
  }

  /** In every interleaving that meets the guard, every column of the ledger means what it should. */
  lemma ConservedAlways(steps: seq<Step>)
    requires AllLegal(Run(steps).committed) && Guarded(Run(steps).committed)
    ensures Conserved(Run(steps).db) && Bounded(Run(steps).db)
  {
    Serializable(steps);
    SerialConserves(Run(steps).committed);
    SerialBounded(Run(steps).committed);
  }

  /** One step commits at most one operation, and leaves the database as it was if it commits none. */
  lemma StepCommits(steps: seq<Step>)
    requires steps != []
    ensures var s, s' := Run(steps[..|steps| - 1]), Run(steps);
            || (s'.committed == s.committed && s'.db == s.db)
            || (exists op :: s'.committed == s.committed + [op] && s'.db == Atomic(op, s.db).db)
  {
    var s, step := Run(steps[..|steps| - 1]), steps[|steps| - 1];
    RunKeepsSnapshots(steps[..|steps| - 1]);
    if step.Commit? && step.id in s.open {
      CommitIsAtomic(s.open[step.id].op, s.open[step.id].snapshot, s.db);
      assert Run(steps).committed == s.committed || Run(steps).committed == s.committed + [s.open[step.id].op];
    }
  }

  /** The ledger is conserved at every moment of the run. */
  ghost predicate AlwaysConserved(steps: seq<Step>) {
    forall n :: 0 <= n <= |steps| ==> Conserved(Run(steps[..n]).db)
  }

  lemma AlwaysConservedNext(steps: seq<Step>)
    requires steps != []
    ensures AlwaysConserved(steps) <==> AlwaysConserved(steps[..|steps| - 1]) && Conserved(Run(steps).db)
  {
    var init := steps[..|steps| - 1];
    assert forall n :: 0 <= n <= |init| ==> init[..n] == steps[..n];
    assert steps[..|steps|] == steps;
  }

  /**
   Conservation. In every interleaving of legal operations, every column of the ledger means what it
   should at every moment if and only if each committed operation met the guard when its turn came.
   */
  lemma {:induction false} ConservedAlwaysIff(steps: seq<Step>)
    requires AllLegal(Run(steps).committed)
    ensures AlwaysConserved(steps) <==> Guarded(Run(steps).committed)
  {
    if steps == [] {
      assert Conserved(EMPTY);
    } else {
      var s, s' := Run(steps[..|steps| - 1]), Run(steps);
      StepCommits(steps);
      AlwaysConservedNext(steps);
      Serializable(steps[..|steps| - 1]);
      if s'.committed == s.committed {
        ConservedAlwaysIff(steps[..|steps| - 1]);
        assert s'.db == s.db;
        assert steps[..|steps| - 1][..|steps| - 1] == steps[..|steps| - 1];
      } else {
        var op :| s'.committed == s.committed + [op] && s'.db == Atomic(op, s.db).db;
        assert s'.committed[..|s.committed|] == s.committed;
        LegalParts(s'.committed);
        ConservedAlwaysIff(steps[..|steps| - 1]);
        if Guarded(s.committed) {
          NextConservesIff(s.committed, op);
        }
      }
    }
  }

  // ----- a condition on adjustments alone -----

  /** A ledger whose totals an `i64` can count meets the guard, whatever comes next. */
  lemma CountedFits(op: Op, db: Database)
    requires Conserved(db) && Counted(db)
    ensures Bounded(db) && Fits(op, db)
  {
    forall a | a in db.credits
      ensures 0 <= db.credits[a].balance <= I64_MAX && 0 <= db.credits[a].held <= I64_MAX
    {
      assert AccountConserved(db, a);
      HeldIsNonNegative(db, a);
      assert Total(db, a) <= I64_MAX;
    }
    forall h | h in db.holds && db.holds[h].status == Held
      ensures 0 <= db.holds[h].amount <= db.credits[db.holds[h].account].held
    {
      ActiveHoldIsCovered(db, h);
    }
    if Resolves(op, db) {
      ResolvesMeans(op, db);
      assert Total(db, db.holds[op.holdId].account) <= I64_MAX;
    }
  }

  /** Only an accepted adjustment adds to a total, and only to its own account's. */
  lemma ChargeOnlyGrants(op: Op, db: Database)
    requires Legal(op)
    ensures forall a :: Charge(op, db, a) > 0 ==> op.Adjust? && op.account == a && Atomic(op, db).outcome.Done?
    ensures op.Adjust? && Atomic(op, db).outcome.Done? ==> Charge(op, db, op.account) == op.delta
  {
  }

  /** Totals stay countable through one operation exactly if it is not an adjustment that passes the bound. */
  lemma NextCountedIff(op: Op, db: Database)
    requires Conserved(db) && Counted(db) && Legal(op)
    ensures Conserved(Atomic(op, db).db)
    ensures Counted(Atomic(op, db).db)
            <==> (op.Adjust? && Atomic(op, db).outcome.Done? ==> Total(db, op.account) + op.delta <= I64_MAX)
  {
    var after := Atomic(op, db).db;
    CountedFits(op, db);
    AtomicConservesIff(op, db);
    ChargeOnlyGrants(op, db);
    forall a | a in after.credits
      ensures Total(after, a) <= I64_MAX || (op.Adjust? && op.account == a && Atomic(op, db).outcome.Done?)
    {
      assert Total(after, a) == Total(db, a) + Charge(op, db, a);
    }
    if op.Adjust? && Atomic(op, db).outcome.Done? {
      assert op.account in after.credits && Total(after, op.account) == Total(db, op.account) + op.delta;
    }
  }

  /**
   A run whose adjustments keep every account within an `i64` meets the guard throughout, so it
   conserves; and its totals stay within an `i64`.
   */
  lemma {:induction false} CountableConserves(ops: seq<Op>)
    requires AllLegal(ops) && Countable(ops)
    ensures Guarded(ops) && Conserved(Replay(ops, EMPTY)) && Counted(Replay(ops, EMPTY))
  {
    if ops != [] {
      LegalParts(ops);
      CountableConserves(ops[..|ops| - 1]);
      CountedFits(ops[|ops| - 1], Replay(ops[..|ops| - 1], EMPTY));
      NextCountedIff(ops[|ops| - 1], Replay(ops[..|ops| - 1], EMPTY));
    }
  }

  lemma {:induction false} CountablePrefix(ops: seq<Op>, n: nat)
    requires n <= |ops| && Countable(ops)
    ensures Countable(ops[..n])
    decreases |ops|
  {
    if n == |ops| {
      assert ops[..n] == ops;
    } else {
      CountablePrefix(ops[..|ops| - 1], n);
      assert ops[..|ops| - 1][..n] == ops[..n];
    }
  }

  /** Every moment of the serial run has countable totals. */
  ghost predicate AlwaysCounted(ops: seq<Op>) {
    forall n :: 0 <= n <= |ops| ==> Counted(Replay(ops[..n], EMPTY))
  }

  lemma AlwaysCountedNext(ops: seq<Op>)
    requires ops != []
    ensures AlwaysCounted(ops) <==> AlwaysCounted(ops[..|ops| - 1]) && Counted(Replay(ops, EMPTY))
  {
    var init := ops[..|ops| - 1];
    forall n | 0 <= n <= |init|
      ensures init[..n] == ops[..n]
    {
    }
    assert ops[..|ops|] == ops;
    if AlwaysCounted(ops) {
      assert Counted(Replay(ops[..|ops|], EMPTY));
      forall n | 0 <= n <= |init|
        ensures Counted(Replay(init[..n], EMPTY))
      {
        assert Counted(Replay(ops[..n], EMPTY));
      }
    } else if AlwaysCounted(init) && Counted(Replay(ops, EMPTY)) {
      forall n | 0 <= n <= |ops|
        ensures Counted(Replay(ops[..n], EMPTY))
      {
        assert n < |ops| ==> Counted(Replay(init[..n], EMPTY));
      }
    }
  }

  /** Totals stay within an `i64` exactly if no adjustment lifts one beyond. */
  lemma {:induction false} CountableIff(ops: seq<Op>)
    requires AllLegal(ops)
    ensures Countable(ops) <==> AlwaysCounted(ops)
  {
    if ops != [] {
      var init := ops[..|ops| - 1];
      LegalParts(ops);
      CountableIff(init);
      AlwaysCountedNext(ops);
      if Countable(init) {
        CountableConserves(init);
        NextCountedIff(ops[|ops| - 1], Replay(init, EMPTY));
      }
    }
  }

  // ----- exact refusal conditions -----

  /** The account's row reads `balance`, and the log has one row more, which says so. */
  ghost predicate Recorded(db: Database, after: Database, a: AccountId, delta: int, balance: int,
                           reason: Option<string>, operator: Option<string>)
  {
    && a in after.credits && after.credits[a].balance == balance
    && after.log == db.log + [TxRow(a, delta, balance, reason, operator)]
  }

  /** An adjustment run alone succeeds exactly when the exact new balance is a non-negative `i64`. */
  lemma AdjustAcceptedIff(db: Database, a: AccountId, delta: int, reason: Option<string>, operator: Option<string>)
    requires a in db.credits && 0 <= db.credits[a].balance <= I64_MAX && IsI64(delta)
    ensures var r := Atomic(Adjust(a, delta, reason, operator), db);
            var adjusted := db.credits[a].balance + delta;
            && (r.outcome.Done? <==> 0 <= adjusted <= I64_MAX)
            && (r.outcome.Done? ==> r.outcome == Done(Balance(adjusted)) && Recorded(db, r.db, a, delta, adjusted, reason, operator))
            && (!r.outcome.Done? ==> r == Result(db, Refused))
  {
  }

  /** A hold is placed exactly when the balance covers it and its id is new; the answer is its handle. */
  lemma PlaceAcceptedIff(db: Database, a: AccountId, amount: int, h: HoldId)
    ensures var r := Atomic(PlaceHold(a, amount, h), db);
            && (r.outcome.Done? <==> a in db.credits && amount <= db.credits[a].balance && h !in db.holds)
            && (r.outcome.Done? ==>
                  && r.outcome == Done(Placed(h, r.db.credits[a].version))
                  && r.db.holds == db.holds[h := Hold(a, amount, Held)] && r.db.log == db.log)
            && (!r.outcome.Done? ==> r.db == db)
  {
  }

  /**
   Settling an active hold whose account holds no more than an `i64` is refused just when the exact
   new balance is negative or does not fit. The code's other test, that `held` would go negative,
   never decides.
   */
  lemma SettleAcceptedIff(db: Database, h: HoldId, cost: int)
    requires Conserved(db) && Bounded(db) && h in db.holds && db.holds[h].status == Held
    requires db.credits[db.holds[h].account].held <= I64_MAX && 0 <= cost <= I64_MAX
    ensures var a, amount := db.holds[h].account, db.holds[h].amount;
            var settled := db.credits[a].balance + amount - cost;
            var r := Atomic(SettleHold(h, cost), db);
            && (r.outcome.Done? <==> 0 <= settled <= I64_MAX)
            && (r.outcome.Done? ==> r.outcome == Done(Balance(settled))
                                    && Recorded(db, r.db, a, -cost, settled, Some("usage"), Some("system")))
            && (!r.outcome.Done? ==> r == Result(db, Refused))
            && 0 <= WrapI64(db.credits[a].held - amount)
  {
    ActiveHoldIsCovered(db, h);
    assert AccountConserved(db, db.holds[h].account);
  }

  /** A sum of two numbers that each fit is kept exactly, or turns negative. */
  lemma SumFitsIff(x: int, y: int)
    requires 0 <= x <= I64_MAX && 0 <= y <= I64_MAX
    ensures WrapI64(x + y) == x + y <==> x + y <= I64_MAX
    ensures 0 <= WrapI64(x + y) <==> x + y <= I64_MAX
  {
  }

  lemma ReleaseMeans(db: Database, h: HoldId)
    requires h in db.holds && db.holds[h].status == Held && db.holds[h].account in db.credits
    ensures var a, r := db.holds[h].account, Atomic(ReleaseHold(h), db);
            var written := WrapI64(db.credits[a].balance + db.holds[h].amount);
            r.outcome == Done(Balance(written)) && a in r.db.credits && r.db.credits[a].balance == written
  {
  }

  /**
   Releasing an active hold alone always succeeds. Where nothing held is beyond an `i64`, it
   conserves, keeps the balance non-negative and answers the balance with the amount returned to it,
   exactly if that fits.
   */
  lemma ReleaseConservesIff(db: Database, h: HoldId)
    requires Conserved(db) && Bounded(db) && h in db.holds && db.holds[h].status == Held
    requires db.credits[db.holds[h].account].held <= I64_MAX
    ensures var a, r := db.holds[h].account, Atomic(ReleaseHold(h), db);
            var released := db.credits[a].balance + db.holds[h].amount;
            && r.outcome.Done?
            && (Conserved(r.db) <==> released <= I64_MAX)
            && (0 <= r.db.credits[a].balance <==> released <= I64_MAX)
            && (r.outcome == Done(Balance(released)) <==> released <= I64_MAX)
  {
    var a := db.holds[h].account;
    ActiveHoldIsCovered(db, h);
    assert AccountConserved(db, a);
    ReleaseMeans(db, h);
    SumFitsIff(db.credits[a].balance, db.holds[h].amount);
    AtomicConservesIff(ReleaseHold(h), db);
  }

  /**
   Where nothing held is beyond an `i64`, releases are the only operations that can break the books,
   and they do so exactly when the returned amount does not fit.
   */
  lemma OnlyReleasesBreak(op: Op, db: Database)
    requires Conserved(db) && Bounded(db) && Legal(op)
    requires forall a :: a in db.credits ==> db.credits[a].held <= I64_MAX
    ensures Conserved(Atomic(op, db).db)
       <==> (op.ReleaseHold? && op.holdId in db.holds && db.holds[op.holdId].status == Held
             ==> db.credits[db.holds[op.holdId].account].balance + db.holds[op.holdId].amount <= I64_MAX)
  {
    AtomicConservesIff(op, db);
    if Resolves(op, db) {
      ResolvesMeans(op, db);
      ActiveHoldIsCovered(db, op.holdId);
    }
    if op.ReleaseHold? && op.holdId in db.holds && db.holds[op.holdId].status == Held {
      assert db.holds[op.holdId].account in db.credits;
    }
  }

  /** The effect of appending one operation to a serial run. */
  lemma ReplayNext(ops: seq<Op>, op: Op, before: Database)
    requires AllAccepted(ops, EMPTY) && Replay(ops, EMPTY) == before && Atomic(op, before).outcome.Done?
    ensures AllAccepted(ops + [op], EMPTY) && Replay(ops + [op], EMPTY) == Atomic(op, before).db
  {
    assert (ops + [op])[..|ops|] == ops;
  }

  /** Beyond that the ledger does break: releasing this hold wraps the balance to -2. */
  lemma ReleaseCanWrap(a: AccountId, h: HoldId)
    ensures var ops := [Init(a), Adjust(a, I64_MAX, None, None), PlaceHold(a, I64_MAX, h),
                        Adjust(a, I64_MAX, None, None), ReleaseHold(h)];
            && AllLegal(ops) && AllAccepted(ops, EMPTY)
            && a in Replay(ops, EMPTY).credits
            && Replay(ops, EMPTY).credits[a].balance == -2
  {
    var grant, place := Adjust(a, I64_MAX, None, None), PlaceHold(a, I64_MAX, h);
    var d1 := Atomic(Init(a), EMPTY).db;
    var d2 := Atomic(grant, d1).db;
    var d3 := Atomic(place, d2).db;
    var d4 := Atomic(grant, d3).db;
    ReplayNext([], Init(a), EMPTY);
    var s1 := [] + [Init(a)];
    ReplayNext(s1, grant, d1);
    ReplayNext(s1 + [grant], place, d2);
    ReplayNext(s1 + [grant] + [place], grant, d3);
    ReplayNext(s1 + [grant] + [place] + [grant], ReleaseHold(h), d4);
    assert s1 + [grant] + [place] + [grant] + [ReleaseHold(h)] == [Init(a), grant, place, grant, ReleaseHold(h)];
  }
}
