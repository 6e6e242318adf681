/**
 What one chat request does to the books, whatever the upstream replies, whatever other requests
 commit meanwhile, and whichever database call fails.
 */
module ChatAccounting {
  import opened Chat
  import opened Common
  import opened Conservation
  import opened Failover
  import opened Ledger
  import P = Providers
  import Rates
  import opened Routing
  import U = UsageLog

  /** The operations of other requests never resolve this request's hold: its id is known to no one else. */
  predicate Foreign(op: Op, h: HoldId) {
    && (op.SettleHold? ==> op.holdId != h)
    && (op.ReleaseHold? ==> op.holdId != h)
  }

  /** The request passes all checks that come before the hold. */
  ghost predicate Admitted(req: Request, env: Surroundings, s: State) {
    && !req.stream && !env.faults.lookup && req.model in env.models
    && Candidates(env.mappings, s.providers) != []
  }

  /** And its hold is placed. */
  ghost predicate Placed(req: Request, env: Surroundings, s: State) {
    && DrawsFit(env, s) && Admitted(req, env, s)
    && Place(req, env.models[req.model], env, s.ledger).outcome.Done?
  }

  function HoldOp(req: Request, env: Surroundings): (op: Op)
    requires req.model in env.models
    ensures Legal(op)
  {
    PlaceHold(req.account, Estimate(req, env.models[req.model]), req.holdId)
  }

  /** The ledger's operations from the very beginning to the moment the hold is to be resolved. */
  function History(req: Request, env: Surroundings, past: seq<Op>): seq<Op>
    requires req.model in env.models
  {
    past + env.others.placing + [HoldOp(req, env)] + env.others.serving + env.others.resolving
  }

  /**
   The ledger is the work of operations `past`; they, the others' and the request's own all meet the
   ledger's guard when their turn comes; and the others know nothing of the request's hold.
   */
  ghost predicate Lawful(req: Request, env: Surroundings, s: State, past: seq<Op>)
    requires DrawsFit(env, s) && req.model in env.models
  {
    && s.ledger == Replay(past, EMPTY)
    && AllLegal(History(req, env, past)) && Guarded(History(req, env, past))
    && Fits(Ending(req, env, s), AtEnd(req, env, s))
    && (forall op :: op in env.others.serving || op in env.others.resolving ==> Foreign(op, req.holdId))
  }

  /** The ledger when the hold commits, once it has, and when the settlement or release commits. */
  function AtHold(env: Surroundings, s: State): Database {
    Replay(env.others.placing, s.ledger)
  }

  function WithHold(req: Request, env: Surroundings, s: State): Database
    requires req.model in env.models
  {
    Place(req, env.models[req.model], env, s.ledger).db
  }

  function AtEnd(req: Request, env: Surroundings, s: State): Database
    requires req.model in env.models
  {
    Now(env, WithHold(req, env, s))
  }

  function Ending(req: Request, env: Surroundings, s: State): (op: Op)
    requires DrawsFit(env, s) && req.model in env.models
    ensures Legal(op)
  {
    Resolution(req, env.models[req.model], Candidates(env.mappings, s.providers), env)
  }

  // ----- the ledger's history -----

  ghost predicate Sound(db: Database) {
    Conserved(db) && Bounded(db)
  }

  /** Every moment of a lawful history is sound. */
  lemma MomentIsSound(history: seq<Op>, ops: seq<Op>)
    requires AllLegal(history) && Guarded(history) && ops <= history
    ensures Sound(Replay(ops, EMPTY))
  {
    assert history[..|ops|] == ops;
    GuardedPrefix(history, |ops|);
    assert AllLegal(ops);
    SerialConserves(ops);
    SerialBounded(ops);
  }

  /**
   When no adjustment, of all that happens up to the end of the request, lifts an account beyond an
   `i64`, the ledger's guard is met throughout, and nothing held is beyond one either.
   */
  lemma CountableIsLawful(req: Request, env: Surroundings, s: State, past: seq<Op>)
    requires Placed(req, env, s) && s.ledger == Replay(past, EMPTY)
    requires AllLegal(History(req, env, past)) && Countable(History(req, env, past))
    requires forall op :: op in env.others.serving || op in env.others.resolving ==> Foreign(op, req.holdId)
    ensures Lawful(req, env, s, past)
    ensures forall a :: a in AtEnd(req, env, s).credits ==> AtEnd(req, env, s).credits[a].held <= I64_MAX
  {
    var history := History(req, env, past);
    CountableConserves(history);
    HistoryLeadsToEnd(req, env, s, past);
    CountedFits(Ending(req, env, s), AtEnd(req, env, s));
    forall a | a in AtEnd(req, env, s).credits
      ensures AtEnd(req, env, s).credits[a].held <= I64_MAX
    {
      assert AccountConserved(AtEnd(req, env, s), a) && Total(AtEnd(req, env, s), a) <= I64_MAX;
    }
  }

  /** The hold, read from an old snapshot, commits as it would have alone. */
  lemma HoldCommits(req: Request, env: Surroundings, s: State, past: seq<Op>)
    requires Placed(req, env, s) && s.ledger == Replay(past, EMPTY)
    ensures Atomic(HoldOp(req, env), AtHold(env, s)).outcome.Done?
    ensures Atomic(HoldOp(req, env), AtHold(env, s)).db == WithHold(req, env, s)
  {
    ReplayExtends(past, EMPTY);
    ReplayExtends(env.others.placing, s.ledger);
    CommitIsAtomic(HoldOp(req, env), s.ledger, AtHold(env, s));
  }

  lemma HistoryLeadsToHold(req: Request, env: Surroundings, s: State, past: seq<Op>)
    requires Placed(req, env, s) && s.ledger == Replay(past, EMPTY)
    ensures AtHold(env, s) == Replay(past + env.others.placing, EMPTY)
    ensures WithHold(req, env, s) == Replay(past + env.others.placing + [HoldOp(req, env)], EMPTY)
  {
    var ops := past + env.others.placing;
    HoldCommits(req, env, s, past);
    ReplayAppend(past, env.others.placing, EMPTY);
    assert (ops + [HoldOp(req, env)])[..|ops|] == ops;
  }

  /** The history is what brings the ledger to the moment the hold is to be resolved. */
  lemma HistoryLeadsToEnd(req: Request, env: Surroundings, s: State, past: seq<Op>)
    requires Placed(req, env, s) && s.ledger == Replay(past, EMPTY)
    ensures AtEnd(req, env, s) == Replay(History(req, env, past), EMPTY)
  {
    var ops := past + env.others.placing + [HoldOp(req, env)];
    HistoryLeadsToHold(req, env, s, past);
    ReplayAppend(ops, env.others.serving, EMPTY);
    ReplayAppend(ops + env.others.serving, env.others.resolving, EMPTY);
  }

  lemma {:induction false} HoldUntouched(ops: seq<Op>, db: Database, h: HoldId)
    requires h in db.holds && forall op :: op in ops ==> Foreign(op, h)
    ensures h in Replay(ops, db).holds && Replay(ops, db).holds[h] == db.holds[h]
  {
    if ops != [] {
      var init, last := ops[..|ops| - 1], ops[|ops| - 1];
      assert ops == init + [last];
      HoldUntouched(init, db, h);
      assert Foreign(last, h);
    }
  }

  // ----- from the hold to its resolution -----

  /** The hold is in the books, active and in full, when the settlement begins and when it commits. */
  ghost predicate HoldStands(req: Request, env: Surroundings, s: State)
    requires req.model in env.models
  {
    var hold := Hold(req.account, Estimate(req, env.models[req.model]), Held);
    var begun, now := Begun(env, WithHold(req, env, s)), AtEnd(req, env, s);
    && Sound(begun) && Sound(now) && Extends(begun, now)
    && req.holdId in begun.holds && begun.holds[req.holdId] == hold
    && req.holdId in now.holds && now.holds[req.holdId] == hold
  }

  /** The ledger at each moment of a lawful history. */
  lemma HistoryIsSound(req: Request, env: Surroundings, past: seq<Op>)
    requires req.model in env.models
    requires AllLegal(History(req, env, past)) && Guarded(History(req, env, past))
    ensures var ops := past + env.others.placing;
            && Sound(Replay(ops, EMPTY)) && Sound(Replay(ops + [HoldOp(req, env)], EMPTY))
            && Sound(Replay(ops + [HoldOp(req, env)] + env.others.serving, EMPTY))
            && Sound(Replay(History(req, env, past), EMPTY))
  {
    var ops, history := past + env.others.placing, History(req, env, past);
    MomentIsSound(history, ops);
    MomentIsSound(history, ops + [HoldOp(req, env)]);
    MomentIsSound(history, ops + [HoldOp(req, env)] + env.others.serving);
    MomentIsSound(history, history);
  }

  lemma HoldIsPlaced(req: Request, env: Surroundings, s: State, past: seq<Op>)
    requires Placed(req, env, s) && Lawful(req, env, s, past)
    ensures Atomic(HoldOp(req, env), AtHold(env, s)).outcome.Done?
    ensures Atomic(HoldOp(req, env), AtHold(env, s)).db == WithHold(req, env, s)
    ensures WithHold(req, env, s) == Replay(past + env.others.placing + [HoldOp(req, env)], EMPTY)
    ensures Sound(AtHold(env, s)) && Sound(WithHold(req, env, s))
  {
    HoldCommits(req, env, s, past);
    HistoryLeadsToHold(req, env, s, past);
    HistoryIsSound(req, env, past);
  }

  lemma HoldStandsToTheEnd(req: Request, env: Surroundings, s: State, past: seq<Op>)
    requires Placed(req, env, s) && Lawful(req, env, s, past)
    ensures HoldStands(req, env, s)
  {
    var held := WithHold(req, env, s);
    HoldIsPlaced(req, env, s, past);
    HistoryIsSound(req, env, past);
    HistoryLeadsToEnd(req, env, s, past);
    ReplayAppend(past + env.others.placing + [HoldOp(req, env)], env.others.serving, EMPTY);
    ReplayExtends(env.others.resolving, Begun(env, held));
    HeldAt(req, env, s);
    HoldUntouched(env.others.serving, held, req.holdId);
    HoldUntouched(env.others.resolving, Begun(env, held), req.holdId);
  }

  lemma HeldAt(req: Request, env: Surroundings, s: State)
    requires Placed(req, env, s)
    ensures req.holdId in WithHold(req, env, s).holds
    ensures WithHold(req, env, s).holds[req.holdId] == Hold(req.account, Estimate(req, env.models[req.model]), Held)
  {
  }

  /** The request's own operation that ends the hold, as it commits. */
  ghost function AtEndResult(req: Request, env: Surroundings, s: State): Result
    requires DrawsFit(env, s) && req.model in env.models
  {
    Resolve(Ending(req, env, s), env, WithHold(req, env, s))
  }

  /** What is charged: the price of the answer if the hold was settled, otherwise nothing. */
  ghost function Charged(req: Request, env: Surroundings, s: State): int
    requires DrawsFit(env, s) && req.model in env.models
  {
    var op := Ending(req, env, s);
    if AtEndResult(req, env, s).outcome.Done? && op.SettleHold? then op.actualCost else 0
  }

  lemma StatusAfter(op: Op, db: Database)
    requires op.SettleHold? || op.ReleaseHold?
    requires op.holdId in db.holds && db.holds[op.holdId].status == Held && Atomic(op, db).outcome.Done?
    ensures op.holdId in Atomic(op, db).db.holds
    ensures Atomic(op, db).db.holds[op.holdId].status == if op.SettleHold? then Settled else Released
    ensures forall a :: Charge(op, db, a)
              == if op.SettleHold? && a == db.holds[op.holdId].account then -op.actualCost else 0
  {
  }

  /** What settling or releasing an active hold does, should the transaction get through or not. */
  lemma ResolutionAccounting(op: Op, begun: Database, now: Database, fault: bool)
    requires (op.SettleHold? || op.ReleaseHold?) && Legal(op)
    requires Sound(now) && Extends(begun, now) && Fits(op, now)
    requires op.holdId in now.holds && now.holds[op.holdId].status == Held
    ensures var t := if fault then Result(now, Failed) else RunTx(op, begun, now);
            var paid := if t.outcome.Done? && op.SettleHold? then op.actualCost else 0;
            && Conserved(t.db)
            && (forall a :: Total(t.db, a) == Total(now, a) - (if a == now.holds[op.holdId].account then paid else 0))
            && op.holdId in t.db.holds
            && t.db.holds[op.holdId].status
                 == (if !t.outcome.Done? then Held else if op.SettleHold? then Settled else Released)
  {
    CommitIsAtomic(op, begun, now);
    if !fault && RunTx(op, begun, now).outcome.Done? {
      StatusAfter(op, now);
      AtomicConservesIff(op, now);
    }
  }

  /** Placing the hold moves no account's `balance + held`. */
  lemma HoldMovesNoTotal(req: Request, env: Surroundings, s: State, past: seq<Op>)
    requires Placed(req, env, s) && Lawful(req, env, s, past)
    ensures forall a :: Total(WithHold(req, env, s), a) == Total(AtHold(env, s), a)
  {
    HoldIsPlaced(req, env, s, past);
    AtomicConservesIff(HoldOp(req, env), AtHold(env, s));
  }

  /** The request leaves the ledger as its last transaction left it. */
  lemma ServeLeaves(req: Request, env: Surroundings, s: State)
    requires Placed(req, env, s)
    ensures Serve(req, env, s).0.ledger == AtEndResult(req, env, s).db
  {
  }

  /**
   Per-request accounting. Placing the hold moves no account's `balance + held`; ending the request
   takes from it exactly the price of the answer if the hold was settled and nothing otherwise, and
   nothing from any other account. The hold's status says which: it is still held exactly when the
   last transaction did not go through.
   */
  lemma RequestAccounting(req: Request, env: Surroundings, s: State, past: seq<Op>)
    requires Placed(req, env, s) && Lawful(req, env, s, past)
    ensures var after := Serve(req, env, s).0.ledger;
            && (forall a :: Total(WithHold(req, env, s), a) == Total(AtHold(env, s), a))
            && (forall a :: Total(after, a)
                  == Total(AtEnd(req, env, s), a) - (if a == req.account then Charged(req, env, s) else 0))
            && req.holdId in after.holds
            && after.holds[req.holdId].status
                == (if !AtEndResult(req, env, s).outcome.Done? then Held
                    else if Ending(req, env, s).SettleHold? then Settled else Released)
            && Conserved(after)
  {
    HoldMovesNoTotal(req, env, s, past);
    HoldStandsToTheEnd(req, env, s, past);
    ResolutionAccounting(Ending(req, env, s), Begun(env, WithHold(req, env, s)), AtEnd(req, env, s),
                         env.faults.resolve);
    ServeLeaves(req, env, s);
  }

  /** A transaction on an active hold gets through exactly if alone it would and no version moved. */
  lemma ResolvesIff(op: Op, begun: Database, now: Database)
    requires op.SettleHold? || op.ReleaseHold?
    requires WellFormed(begun) && Extends(begun, now)
    requires op.holdId in begun.holds && begun.holds[op.holdId].status == Held
    ensures var a := begun.holds[op.holdId].account;
            a in now.credits &&
            (RunTx(op, begun, now).outcome.Done?
             <==> Atomic(op, begun).outcome.Done? && begun.credits[a].version == now.credits[a].version)
  {
  }

  lemma ResolutionGetsThroughIff(op: Op, begun: Database, now: Database, hold: Hold)
    requires (op.SettleHold? || op.ReleaseHold?) && Legal(op)
    requires Sound(begun) && Extends(begun, now)
    requires op.holdId in begun.holds && begun.holds[op.holdId] == hold && hold.status == Held
    requires hold.account in begun.credits && begun.credits[hold.account].held <= I64_MAX
    ensures hold.account in now.credits
    ensures RunTx(op, begun, now).outcome.Done?
            <==> && begun.credits[hold.account].version == now.credits[hold.account].version
                 && (op.SettleHold? ==> 0 <= begun.credits[hold.account].balance + hold.amount - op.actualCost <= I64_MAX)
  {
    ResolvesIff(op, begun, now);
    if op.SettleHold? {
      SettleAcceptedIff(begun, op.holdId, op.actualCost);
    }
  }

  /**
   The last transaction goes through, and so the hold does not stay held, exactly if there is no
   database error, no operation of another task on the account is accepted between snapshot and
   commit, and what hold and balance leave after the price of an answer is not negative and fits an
   `i64`. Nothing tries again if it does not.
   */
  lemma HoldIsResolvedIff(req: Request, env: Surroundings, s: State, past: seq<Op>)
    requires Placed(req, env, s) && Lawful(req, env, s, past)
    requires req.account in Begun(env, WithHold(req, env, s)).credits
             ==> Begun(env, WithHold(req, env, s)).credits[req.account].held <= I64_MAX
    ensures var begun, op := Begun(env, WithHold(req, env, s)), Ending(req, env, s);
            && req.account in begun.credits
            && (AtEndResult(req, env, s).outcome.Done?
                <==> && !env.faults.resolve
                     && WritesTo(env.others.resolving, begun, req.account) == 0
                     && (op.SettleHold? ==> 0 <= begun.credits[req.account].balance
                                                 + Estimate(req, env.models[req.model]) - op.actualCost <= I64_MAX))
  {
    HoldStandsToTheEnd(req, env, s, past);
    var begun := Begun(env, WithHold(req, env, s));
    ResolutionGetsThroughIff(Ending(req, env, s), begun, AtEnd(req, env, s),
                   Hold(req.account, Estimate(req, env.models[req.model]), Held));
    VersionCountsWrites(env.others.resolving, begun, req.account);
  }

  // ----- a request left alone -----

  /** The account's row after a request that no other task interferes with. */
  function RowAfter(row: CreditRow, estimate: int, op: Op): CreditRow {
    if op.SettleHold? && op.actualCost > row.balance then
      CreditRow(row.balance - estimate, row.held + estimate, row.version + 1)
    else
      CreditRow(row.balance - (if op.SettleHold? then op.actualCost else 0), row.held, row.version + 2)
  }

  lemma HeldRow(ledger: Database, a: AccountId, estimate: int, h: HoldId)
    requires Sound(ledger) && 0 <= estimate <= I64_MAX
    requires Atomic(PlaceHold(a, estimate, h), ledger).outcome.Done?
    ensures a in ledger.credits && estimate <= ledger.credits[a].balance <= I64_MAX && 0 <= ledger.credits[a].held
    ensures var row, held := ledger.credits[a], Atomic(PlaceHold(a, estimate, h), ledger).db;
            && held.credits == ledger.credits[a := CreditRow(row.balance - estimate, row.held + estimate, row.version + 1)]
            && held.holds == ledger.holds[h := Hold(a, estimate, Held)]
  {
    HeldIsNonNegative(ledger, a);
  }

  lemma EndedRow(held: Database, row: CreditRow, a: AccountId, estimate: int, h: HoldId, op: Op)
    requires op == ReleaseHold(h) || (op.SettleHold? && op.holdId == h && 0 <= op.actualCost <= I64_MAX)
    requires h in held.holds && held.holds[h] == Hold(a, estimate, Held)
    requires 0 <= estimate <= row.balance <= I64_MAX && 0 <= row.held <= I64_MAX
    requires a in held.credits
    requires held.credits[a] == CreditRow(row.balance - estimate, row.held + estimate, row.version + 1)
    ensures Atomic(op, held).db.credits == held.credits[a := RowAfter(row, estimate, op)]
  {
  }

  lemma LeftAlone(ledger: Database, a: AccountId, estimate: int, h: HoldId, op: Op)
    requires Sound(ledger) && 0 <= estimate <= I64_MAX && Legal(op)
    requires op == ReleaseHold(h) || (op.SettleHold? && op.holdId == h)
    requires Atomic(PlaceHold(a, estimate, h), ledger).outcome.Done?
    requires a in ledger.credits && ledger.credits[a].held <= I64_MAX
    ensures estimate <= ledger.credits[a].balance
    ensures Atomic(op, Atomic(PlaceHold(a, estimate, h), ledger).db).db.credits
            == ledger.credits[a := RowAfter(ledger.credits[a], estimate, op)]
  {
    HeldRow(ledger, a, estimate, h);
    EndedRow(Atomic(PlaceHold(a, estimate, h), ledger).db, ledger.credits[a], a, estimate, h, op);
  }

  /**
   A request that no other task interferes with leaves its account, if it is released, as it found
   it but for the version; if it is settled, poorer by the price alone; and if the price exceeds the
   balance it began with, unsettled, with the estimate still held. No other account changes.
   */
  lemma UndisturbedRequest(req: Request, env: Surroundings, s: State, past: seq<Op>)
    requires Placed(req, env, s) && Lawful(req, env, s, past)
    requires env.others == Others([], [], []) && !env.faults.resolve
    requires req.account in s.ledger.credits ==> s.ledger.credits[req.account].held <= I64_MAX
    ensures var estimate := Estimate(req, env.models[req.model]);
            && req.account in s.ledger.credits && estimate <= s.ledger.credits[req.account].balance
            && AtEndResult(req, env, s).db.credits
               == s.ledger.credits[req.account := RowAfter(s.ledger.credits[req.account], estimate, Ending(req, env, s))]
  {
    HoldIsPlaced(req, env, s, past);
    LeftAlone(s.ledger, req.account, Estimate(req, env.models[req.model]), req.holdId, Ending(req, env, s));
  }

  // ----- requests without a hold -----

  /**
   Without a hold the request fails and leaves everything to the others. Insufficient credits are
   reported exactly when the hold was refused, or lost to another's commit.
   */
  lemma UnplacedRequest(req: Request, env: Surroundings, s: State)
    requires DrawsFit(env, s) && !Placed(req, env, s) && WellFormed(s.ledger)
    ensures var (after, r) := Serve(req, env, s);
            && r.Error?
            && after == (if Admitted(req, env, s) then s.(ledger := AtHold(env, s)) else s)
            && (r == Error(InsufficientCredits)
                <==> Admitted(req, env, s) && !Place(req, env.models[req.model], env, s.ledger).outcome.Failed?)
  {
    if req.model in env.models {
      ReplayExtends(env.others.placing, s.ledger);
      CommitIsAtomic(HoldOp(req, env), s.ledger, AtHold(env, s));
    }
  }

  /** The account is there, its balance covers the estimate, and no one else writes it before the hold commits. */
  ghost predicate Covered(req: Request, model: LogicalModel, env: Surroundings, ledger: Database) {
    && req.account in ledger.credits && Estimate(req, model) <= ledger.credits[req.account].balance
    && WritesTo(env.others.placing, ledger, req.account) == 0
  }

  /**
   What becomes of the hold. It is refused just for want of an account or of balance; lost just if
   another task's operation on the same account is accepted before it commits; and placed in every
   other case, unless its id is taken.
   */
  lemma HoldRefusedIff(req: Request, model: LogicalModel, env: Surroundings, ledger: Database)
    requires WellFormed(ledger) && !env.faults.place
    ensures var outcome := Place(req, model, env, ledger).outcome;
            && (outcome.Refused?
                <==> req.account !in ledger.credits || ledger.credits[req.account].balance < Estimate(req, model))
            && (outcome.Lost?
                <==> && req.account in ledger.credits && Estimate(req, model) <= ledger.credits[req.account].balance
                     && WritesTo(env.others.placing, ledger, req.account) > 0)
            && (outcome.Done? <==> Covered(req, model, env, ledger)
                                   && req.holdId !in Replay(env.others.placing, ledger).holds)
  {
    GetsThroughIff(PlaceHold(req.account, Estimate(req, model), req.holdId), ledger, env.others.placing);
  }

  // ----- candidates and prices -----

  predicate IsActive(c: RouteCandidate, providers: P.Table) {
    c.providerId in providers && providers[c.providerId].status == P.Active
  }

  /** The candidates are the mappings with an active provider, each as often as it is mapped. */
  lemma {:induction false} CandidatesAreActive(mappings: seq<RouteCandidate>, providers: P.Table, c: RouteCandidate)
    ensures multiset(Candidates(mappings, providers))[c] == if IsActive(c, providers) then multiset(mappings)[c] else 0
  {
    if mappings != [] {
      var init := mappings[..|mappings| - 1];
      assert mappings == init + [mappings[|mappings| - 1]];
      CandidatesAreActive(init, providers, c);
    }
  }

  /** They stand in the order of the mappings: candidates of earlier mappings come first. */
  lemma {:induction false} CandidatesKeepOrder(mappings: seq<RouteCandidate>, more: seq<RouteCandidate>, providers: P.Table)
    ensures Candidates(mappings + more, providers) == Candidates(mappings, providers) + Candidates(more, providers)
    decreases |more|
  {
    if more == [] {
      assert mappings + more == mappings;
    } else {
      var init := more[..|more| - 1];
      assert (mappings + more)[..|mappings + more| - 1] == mappings + init;
      CandidatesKeepOrder(mappings, init, providers);
    }
  }

  /** There is a candidate exactly if some mapping's provider is active. */
  lemma CandidatesExistIff(mappings: seq<RouteCandidate>, providers: P.Table)
    ensures Candidates(mappings, providers) != [] <==> exists c :: c in mappings && IsActive(c, providers)
  {
    var candidates := Candidates(mappings, providers);
    forall c
      ensures c in candidates <==> c in mappings && IsActive(c, providers)
    {
      CandidatesAreActive(mappings, providers, c);
      assert c in candidates <==> multiset(candidates)[c] > 0;
      assert c in mappings <==> multiset(mappings)[c] > 0;
    }
    assert candidates != [] ==> candidates[0] in candidates;
  }

  /** What is held in advance: the price of the estimated prompt, or one credit if it comes to less. */
  lemma EstimateIs(req: Request, model: LogicalModel, price: int)
    requires Rates.IsPrice(price, req.promptEstimate, 0, model.inputRate, model.outputRate)
    ensures Estimate(req, model) == if price < 1 then 1 else price
  {
    Rates.PriceIff(Rates.UsageTokens(req.promptEstimate, 0), model.inputRate, model.outputRate, price);
  }

  lemma NothingCostsNothing(credits: int, rate: int)
    ensures Rates.IsShare(credits, 0, rate) <==> credits == 0
  {
    assert 0 * rate == 0;
    Rates.ShareIff(0, rate, credits);
  }

  /** So where its product fits, the estimate is the prompt's exact price in whole credits, and at least one. */
  lemma EstimateIsClose(req: Request, model: LogicalModel)
    requires 0 <= req.promptEstimate && 0 <= model.inputRate && IsI64(req.promptEstimate * model.inputRate)
    ensures var (held, exact) := (Estimate(req, model), req.promptEstimate * model.inputRate);
            1 <= held && (1 < held ==> 1000 * held <= exact) && exact < 1000 * (held + 1)
  {
    var exact := req.promptEstimate * model.inputRate;
    Rates.MulNonNegative(req.promptEstimate, model.inputRate);
    assert Rates.Nearest(exact, req.promptEstimate * model.inputRate) && Rates.Truncates(exact / 1000, exact);
    NothingCostsNothing(0, model.outputRate);
    assert Rates.IsShare(exact / 1000, req.promptEstimate, model.inputRate) && Rates.IsShare(0, 0, model.outputRate);
    assert exact / 1000 == exact / 1000 + 0;
    EstimateIs(req, model, exact / 1000);
  }

  /** An answer is never charged more than its exact price, nor two credits less. */
  lemma ChargedAlmostExactly(tokens: Rates.UsageTokens, model: LogicalModel)
    requires 0 <= model.inputRate && 0 <= model.outputRate && 0 <= tokens.promptTokens && 0 <= tokens.completionTokens
    requires Rates.Unsaturated(tokens, model.inputRate, model.outputRate)
    ensures 0 <= tokens.promptTokens * model.inputRate + tokens.completionTokens * model.outputRate
                 - 1000 * Actual(tokens, model) <= 1998
  {
    Rates.MulNonNegative(tokens.promptTokens, model.inputRate);
    Rates.MulNonNegative(tokens.completionTokens, model.outputRate);
    Rates.UnderchargesByLessThanTwo(tokens, model.inputRate, model.outputRate);
  }

  /** The hold covers any answer without a completion whose prompt is no longer than estimated. */
  lemma HoldCoversPrompt(req: Request, model: LogicalModel, tokens: Rates.UsageTokens)
    requires 0 <= model.inputRate && 0 <= model.outputRate
    requires tokens.promptTokens <= req.promptEstimate && tokens.completionTokens <= 0
    ensures Actual(tokens, model) <= Estimate(req, model)
  {
    Rates.CreditsMonotone(tokens, Rates.UsageTokens(req.promptEstimate, 0), model.inputRate, model.outputRate);
  }

  // ----- the quota alert -----

  /**
   Counting a request's tokens is, on its provider's row, the two statements of the alert's event
   machine with nothing in between, and sends the alert exactly when that machine does. No other row
   changes.
   */
  lemma CountQuotaIsAddThenMark(s: State, id: P.ProviderId, tokens: int, faults: Faults, r: nat)
    requires !faults.addUsage && id in s.providers
    ensures var (after, events) := (CountQuota(s, id, tokens, faults), [P.Add(r, tokens), P.Mark(r, !faults.markAlert)]);
            && after.providers == s.providers[id := P.After(s.providers[id], events).row]
            && after.alerts == (if P.Alerts(s.providers[id], events, 1) then s.alerts + [id] else s.alerts)
            && after.ledger == s.ledger && after.usage == s.usage
  {
    var row, events := s.providers[id], [P.Add(r, tokens), P.Mark(r, !faults.markAlert)];
    P.UseIsAddThenMark(row, r, tokens, !faults.markAlert);
    assert events[..1] == [events[0]] && events[..1][..0] == [];
    assert P.After(row, events[..1]) == P.Next(P.Quota(row, {}), events[0]);
  }

  // ----- the log and the summaries -----

  function QuotaUsed(s: State, p: P.ProviderId): int {
    if p in s.providers then s.providers[p].quotaUsed else 0
  }

  /** A request written down adds its price to its account's summaries and its tokens to the provider's. */
  lemma RecordBills(req: Request, provider: P.ProviderId, tokens: Rates.UsageTokens, cost: int, env: Surroundings,
                    s: State)
    ensures var (after, r) := Record(req, provider, tokens, cost, env, s);
            && (r == Answer <==> !env.faults.insert && !U.HasId(s.usage.log, req.entryId))
            && (r != Answer ==> after == s)
            && (r == Answer ==>
                  && (forall a :: U.CreditsBilled(after.usage, a) == U.CreditsBilled(s.usage, a) + (if a == req.account then cost else 0))
                  && (forall p :: U.TokensBilled(after.usage, p)
                                  == U.TokensBilled(s.usage, p) + (if p == provider then TokenTotal(tokens) else 0))
                  && (forall p :: QuotaUsed(after, p) == QuotaUsed(s, p)
                                  + (if p == provider && p in s.providers && !env.faults.addUsage
                                     then TokenTotal(tokens) else 0)))
  {
    var e := Entry(req, provider, tokens, cost);
    if !env.faults.insert && !U.HasId(s.usage.log, req.entryId) {
      var after := Record(req, provider, tokens, cost, env, s).0;
      assert after.usage == U.Insert(s.usage, e, req.period).0;
      forall a
        ensures U.CreditsBilled(after.usage, a) == U.CreditsBilled(s.usage, a) + (if a == req.account then cost else 0)
      {
        U.InsertMovesCredits(s.usage, e, req.period, a);
      }
      forall p
        ensures U.TokensBilled(after.usage, p) == U.TokensBilled(s.usage, p) + (if p == provider then TokenTotal(tokens) else 0)
      {
        U.InsertMovesTokens(s.usage, e, req.period, p);
      }
    }
  }

  /** The state when the hold has been dealt with and nothing is written down yet. */
  ghost function Unrecorded(req: Request, env: Surroundings, s: State): State
    requires DrawsFit(env, s) && req.model in env.models
  {
    var candidates := Candidates(env.mappings, s.providers);
    var ordered := Selected(candidates, env.draws);
    s.(ledger := AtEndResult(req, env, s).db,
       providers := DisabledBy(ordered, ProviderIds(candidates), env.attempts, s.providers,
                               PassedOver(ordered, WalkOf(candidates, env))))
  }

  /** Who answered, and with how many tokens. */
  ghost function Answerer(req: Request, env: Surroundings, s: State): (P.ProviderId, Rates.UsageTokens)
    requires DrawsFit(env, s) && req.model in env.models && Ending(req, env, s).SettleHold?
  {
    var candidates := Candidates(env.mappings, s.providers);
    var k := WalkOf(candidates, env).at;
    (Selected(candidates, env.draws)[k].providerId, TokensOf(req, env.attempts(k).reply))
  }

  lemma ServeEnds(req: Request, env: Surroundings, s: State)
    requires Placed(req, env, s)
    ensures AtEndResult(req, env, s).outcome.Done? && Ending(req, env, s).SettleHold?
            ==> Serve(req, env, s) == Record(req, Answerer(req, env, s).0, Answerer(req, env, s).1,
                                             Charged(req, env, s), env, Unrecorded(req, env, s))
    ensures !(AtEndResult(req, env, s).outcome.Done? && Ending(req, env, s).SettleHold?)
            ==> Serve(req, env, s).0 == Unrecorded(req, env, s) && Serve(req, env, s).1.Error?
  {
  }

  lemma {:induction false} DisablingKeepsQuota(ordered: seq<RouteCandidate>, known: set<P.ProviderId>,
                                               attempts: nat -> Attempt, rows: P.Table, k: nat)
    requires k <= |ordered|
    ensures var after := DisabledBy(ordered, known, attempts, rows, k);
            after.Keys == rows.Keys && forall p :: p in rows ==> after[p].quotaUsed == rows[p].quotaUsed
  {
    if k > 0 {
      DisablingKeepsQuota(ordered, known, attempts, rows, k - 1);
    }
  }

  /** By how much a request's log row and its summary entry differ, over all accounts: not at all. */
  ghost predicate LogMatchesSummary(req: Request, env: Surroundings, s: State, after: State)
    requires req.model in env.models
  {
    forall a :: U.CreditsBilled(after.usage, a) - U.CreditsBilled(s.usage, a)
                == SumDeltas(AtEnd(req, env, s).log, a) - SumDeltas(after.ledger.log, a)
  }

  ghost predicate QuotaMatchesSummary(s: State, after: State, p: P.ProviderId) {
    QuotaUsed(after, p) - QuotaUsed(s, p) == U.TokensBilled(after.usage, p) - U.TokensBilled(s.usage, p)
  }

  lemma LogTakesTheCharge(op: Op, begun: Database, now: Database, fault: bool)
    requires (op.SettleHold? || op.ReleaseHold?) && Legal(op)
    requires Sound(now) && Extends(begun, now) && Fits(op, now)
    requires op.holdId in now.holds && now.holds[op.holdId].status == Held
    ensures var t := if fault then Result(now, Failed) else RunTx(op, begun, now);
            var paid := if t.outcome.Done? && op.SettleHold? then op.actualCost else 0;
            forall a :: SumDeltas(now.log, a) - SumDeltas(t.db.log, a)
                        == if a == now.holds[op.holdId].account then paid else 0
  {
    var t := if fault then Result(now, Failed) else RunTx(op, begun, now);
    ResolutionAccounting(op, begun, now, fault);
    forall a
      ensures SumDeltas(now.log, a) == Total(now, a) && SumDeltas(t.db.log, a) == Total(t.db, a)
    {
      LogIsTotal(now, a);
      LogIsTotal(t.db, a);
    }
  }

  lemma LogIsTotal(db: Database, a: AccountId)
    requires Conserved(db)
    ensures SumDeltas(db.log, a) == Total(db, a)
  {
    if a in db.credits {
      assert AccountConserved(db, a);
    }
  }

  lemma RequestLog(req: Request, env: Surroundings, s: State, past: seq<Op>)
    requires Placed(req, env, s) && Lawful(req, env, s, past)
    ensures forall a :: SumDeltas(AtEnd(req, env, s).log, a) - SumDeltas(AtEndResult(req, env, s).db.log, a)
                        == if a == req.account then Charged(req, env, s) else 0
  {
    HoldStandsToTheEnd(req, env, s, past);
    LogTakesTheCharge(Ending(req, env, s), Begun(env, WithHold(req, env, s)), AtEnd(req, env, s), env.faults.resolve);
  }

  lemma DisablingMovesNoQuota(req: Request, env: Surroundings, s: State)
    requires DrawsFit(env, s) && req.model in env.models
    ensures Unrecorded(req, env, s).usage == s.usage
    ensures Unrecorded(req, env, s).providers.Keys == s.providers.Keys
    ensures forall p :: QuotaUsed(Unrecorded(req, env, s), p) == QuotaUsed(s, p)
  {
    var candidates := Candidates(env.mappings, s.providers);
    var ordered := Selected(candidates, env.draws);
    DisablingKeepsQuota(ordered, ProviderIds(candidates), env.attempts, s.providers,
                        PassedOver(ordered, WalkOf(candidates, env)));
  }

  ghost predicate SettledRequest(req: Request, env: Surroundings, s: State)
    requires DrawsFit(env, s) && req.model in env.models
  {
    AtEndResult(req, env, s).outcome.Done? && Ending(req, env, s).SettleHold?
  }

  lemma UnsettledBilling(req: Request, env: Surroundings, s: State, past: seq<Op>)
    requires Placed(req, env, s) && Lawful(req, env, s, past) && !SettledRequest(req, env, s)
    ensures var (after, r) := Serve(req, env, s);
            && r != Answer && after.usage == s.usage && LogMatchesSummary(req, env, s, after)
            && forall p :: QuotaMatchesSummary(s, after, p)
  {
    RequestLog(req, env, s, past);
    DisablingMovesNoQuota(req, env, s);
    ServeEnds(req, env, s);
    ServeLeaves(req, env, s);
  }

  lemma SettledBilling(req: Request, env: Surroundings, s: State, past: seq<Op>)
    requires Placed(req, env, s) && Lawful(req, env, s, past) && SettledRequest(req, env, s)
    ensures var (after, r) := Serve(req, env, s);
            && (r == Answer <==> !env.faults.insert && !U.HasId(s.usage.log, req.entryId))
            && (r == Answer ==> LogMatchesSummary(req, env, s, after))
            && (r != Answer ==> after.usage == s.usage)
            && (forall p :: p in s.providers && !env.faults.addUsage ==> QuotaMatchesSummary(s, after, p))
  {
    var (provider, tokens) := Answerer(req, env, s);
    RequestLog(req, env, s, past);
    DisablingMovesNoQuota(req, env, s);
    ServeEnds(req, env, s);
    ServeLeaves(req, env, s);
    RecordBills(req, provider, tokens, Charged(req, env, s), env, Unrecorded(req, env, s));
  }

  /**
   Per-request billing. An answered request takes as much from the transaction log as it adds to the
   account's summaries, and adds as much to the provider's quota as to the provider's summaries. A
   settled request goes unanswered, and is then charged but in no summary, exactly if its log entry
   cannot be inserted; every other failure leaves log, summaries and quota as they were.
   */
  lemma RequestBilling(req: Request, env: Surroundings, s: State, past: seq<Op>)
    requires Placed(req, env, s) && Lawful(req, env, s, past)
    ensures var (after, r) := Serve(req, env, s);
            var settled := AtEndResult(req, env, s).outcome.Done? && Ending(req, env, s).SettleHold?;
            && (r == Answer <==> settled && !env.faults.insert && !U.HasId(s.usage.log, req.entryId))
            && (r == Answer || !settled ==> LogMatchesSummary(req, env, s, after))
            && (r != Answer ==> after.usage == s.usage)
            && (forall p :: p in s.providers && !env.faults.addUsage ==> QuotaMatchesSummary(s, after, p))
  {
    if SettledRequest(req, env, s) {
      SettledBilling(req, env, s, past);
    } else {
      UnsettledBilling(req, env, s, past);
    }
  }

  // ----- from the reply to the books -----

  /** Candidate `k` is the one that answers: those before it all fall back. */
  ghost predicate AnsweredBy(req: Request, env: Surroundings, s: State, k: nat)
    requires DrawsFit(env, s)
  {
    EndsAt(Selected(Candidates(env.mappings, s.providers), env.draws), env.attempts, Answered(k))
  }

  lemma WalkEndsAt(env: Surroundings, s: State)
    requires DrawsFit(env, s)
    ensures EndsAt(Selected(Candidates(env.mappings, s.providers), env.draws), env.attempts,
                   WalkOf(Candidates(env.mappings, s.providers), env))
  {
    var candidates := Candidates(env.mappings, s.providers);
    FailoverTrace(candidates, env.draws, env.attempts, s.providers, WalkOf(candidates, env));
  }

  lemma AnswerIsUnique(req: Request, env: Surroundings, s: State, k: nat)
    requires DrawsFit(env, s) && AnsweredBy(req, env, s, k)
    ensures WalkOf(Candidates(env.mappings, s.providers), env) == Answered(k)
  {
    var candidates := Candidates(env.mappings, s.providers);
    WalkEndsAt(env, s);
    EndIsUnique(Selected(candidates, env.draws), env.attempts, WalkOf(candidates, env), Answered(k));
  }

  /** The counts a reply is billed by: those it reports, or the two estimates if it reports none. */
  ghost predicate BilledBy(req: Request, reply: Reply, prompt: int, completion: int)
    requires reply.Success?
  {
    match reply.usage
    case Some(u) => prompt == u.promptTokens && completion == u.completionTokens
    case None => prompt == req.promptEstimate && completion == reply.completionEstimate
  }

  /** Candidate `k` answers and is billed `prompt` and `completion` tokens at the price `price`. */
  ghost predicate AnsweredAt(req: Request, env: Surroundings, s: State, k: nat, prompt: int, completion: int, price: int)
    requires DrawsFit(env, s) && req.model in env.models
  {
    && AnsweredBy(req, env, s, k)
    && BilledBy(req, env.attempts(k).reply, prompt, completion)
    && Rates.IsPrice(price, prompt, completion, env.models[req.model].inputRate, env.models[req.model].outputRate)
  }

  /** What the code makes of such an answer. */
  lemma AnswerMeans(req: Request, env: Surroundings, s: State, k: nat, prompt: int, completion: int, price: int)
    requires DrawsFit(env, s) && req.model in env.models && AnsweredAt(req, env, s, k, prompt, completion, price)
    ensures Ending(req, env, s) == SettleHold(req.holdId, if price < 0 then 0 else price)
    ensures k < |Selected(Candidates(env.mappings, s.providers), env.draws)|
    ensures Answerer(req, env, s) == (Selected(Candidates(env.mappings, s.providers), env.draws)[k].providerId,
                                      Rates.UsageTokens(prompt, completion))
  {
    var model := env.models[req.model];
    AnswerIsUnique(req, env, s, k);
    Rates.PriceIff(Rates.UsageTokens(prompt, completion), model.inputRate, model.outputRate, price);
  }

  /** One row of the account summaries grows by this, and no other changes. */
  ghost predicate SummaryGrows(before: U.Tables, after: U.Tables, account: string, period: string, prompt: int,
                               completion: int, credits: int)
  {
    forall a, p ::
      var row := U.AccountSummary(before, a, p);
      U.AccountSummary(after, a, p)
      == if a == account && p == period
         then U.Summary(row.promptTokens + prompt, row.completionTokens + completion, row.credits + credits, row.calls + 1)
         else row
  }

  ghost predicate ProviderGrows(before: U.Tables, after: U.Tables, provider: string, period: string, tokens: int) {
    forall v, p :: U.ProviderSummary(after, v, p)
                   == U.ProviderSummary(before, v, p) + (if v == provider && p == period then tokens else 0)
  }

  lemma EntrySums(t: U.Tables, req: Request, provider: P.ProviderId, tokens: Rates.UsageTokens, cost: int)
    requires !U.HasId(t.log, req.entryId)
    ensures var after := U.Insert(t, Entry(req, provider, tokens, cost), req.period).0;
            && SummaryGrows(t, after, req.account, req.period, tokens.promptTokens, tokens.completionTokens, cost)
            && ProviderGrows(t, after, provider, req.period, WrapI64(tokens.promptTokens + tokens.completionTokens))
  {
  }

  /** Written down in the period's rows, and counted for the provider if that statement gets through. */
  ghost predicate WrittenDown(req: Request, env: Surroundings, s: State, after: State, provider: P.ProviderId,
                              prompt: int, completion: int, credits: int)
  {
    var tokens := WrapI64(prompt + completion);
    && SummaryGrows(s.usage, after.usage, req.account, req.period, prompt, completion, credits)
    && ProviderGrows(s.usage, after.usage, provider, req.period, tokens)
    && forall v :: QuotaUsed(after, v)
         == QuotaUsed(s, v) + (if v == provider && v in s.providers && !env.faults.addUsage then tokens else 0)
  }

  lemma RecordWritesDown(req: Request, provider: P.ProviderId, tokens: Rates.UsageTokens, cost: int, env: Surroundings,
                         s: State)
    requires Record(req, provider, tokens, cost, env, s).1 == Answer
    ensures WrittenDown(req, env, s, Record(req, provider, tokens, cost, env, s).0, provider, tokens.promptTokens,
                        tokens.completionTokens, cost)
  {
    RecordBills(req, provider, tokens, cost, env, s);
    EntrySums(s.usage, req, provider, tokens, cost);
    assert Record(req, provider, tokens, cost, env, s).0.usage
        == U.Insert(s.usage, Entry(req, provider, tokens, cost), req.period).0;
  }

  lemma AnswerIsWrittenDown(req: Request, env: Surroundings, s: State)
    requires Placed(req, env, s) && Serve(req, env, s).1 == Answer
    ensures AtEndResult(req, env, s).outcome.Done? && Ending(req, env, s).SettleHold?
    ensures var (provider, tokens) := Answerer(req, env, s);
            WrittenDown(req, env, s, Serve(req, env, s).0, provider, tokens.promptTokens, tokens.completionTokens,
                        Charged(req, env, s))
  {
    ServeEnds(req, env, s);
    DisablingMovesNoQuota(req, env, s);
    var (provider, tokens) := Answerer(req, env, s);
    RecordWritesDown(req, provider, tokens, Charged(req, env, s), env, Unrecorded(req, env, s));
  }

  /**
   What an answered request costs and where it is written, in terms of the reply: its account's total
   falls by the price of the tokens the reply reports, or of the estimates if it reports none, and by
   nothing if that is negative; the period's row of the account grows by each count in its own column,
   by that price and by one call; the period's row of the provider that answered, and its quota if that
   statement gets through, by all tokens. No other total and no other row changes.
   */
  lemma AnsweredRequest(req: Request, env: Surroundings, s: State, past: seq<Op>, k: nat, prompt: int, completion: int,
                        price: int)
    requires Placed(req, env, s) && Lawful(req, env, s, past) && Serve(req, env, s).1 == Answer
    requires AnsweredAt(req, env, s, k, prompt, completion, price)
    ensures var (after, paid) := (Serve(req, env, s).0, if price < 0 then 0 else price);
            var ordered := Selected(Candidates(env.mappings, s.providers), env.draws);
            && (forall a :: Total(after.ledger, a) == Total(AtEnd(req, env, s), a) - (if a == req.account then paid else 0))
            && k < |ordered| && WrittenDown(req, env, s, after, ordered[k].providerId, prompt, completion, paid)
  {
    AnswerMeans(req, env, s, k, prompt, completion, price);
    RequestAccounting(req, env, s, past);
    AnswerIsWrittenDown(req, env, s);
  }

  /** So where the products fit, an answer costs its exact price, rounded down by less than two credits. */
  lemma AnsweredPrice(req: Request, env: Surroundings, s: State, past: seq<Op>, k: nat, prompt: nat, completion: nat)
    requires Placed(req, env, s) && Lawful(req, env, s, past) && Serve(req, env, s).1 == Answer
    requires AnsweredBy(req, env, s, k) && BilledBy(req, env.attempts(k).reply, prompt, completion)
    requires var (i, o) := (env.models[req.model].inputRate, env.models[req.model].outputRate);
             0 <= i && 0 <= o && IsI64(prompt * i) && IsI64(completion * o)
    ensures var (i, o) := (env.models[req.model].inputRate, env.models[req.model].outputRate);
            var paid := Total(AtEnd(req, env, s), req.account) - Total(Serve(req, env, s).0.ledger, req.account);
            0 <= prompt * i + completion * o - 1000 * paid <= 1998
  {
    var (i, o) := (env.models[req.model].inputRate, env.models[req.model].outputRate);
    var tokens := Rates.UsageTokens(prompt, completion);
    var price := Rates.ComputeCredits(tokens, i, o);
    Rates.PriceIff(tokens, i, o, price);
    Rates.PriceIsClose(price, prompt, completion, i, o);
    Rates.CreditsMonotone(Rates.UsageTokens(0, 0), tokens, i, o);
    AnsweredRequest(req, env, s, past, k, prompt, completion, price);
  }

  lemma CountingKeepsStatus(s: State, id: P.ProviderId, tokens: int, faults: Faults)
    ensures var after := CountQuota(s, id, tokens, faults);
            && after.providers.Keys == s.providers.Keys
            && forall p :: p in s.providers ==> after.providers[p].status == s.providers[p].status
  {
  }

  lemma RecordKeepsStatus(req: Request, provider: P.ProviderId, tokens: Rates.UsageTokens, cost: int, env: Surroundings,
                          s: State)
    ensures var after := Record(req, provider, tokens, cost, env, s).0;
            && after.providers.Keys == s.providers.Keys
            && forall p :: p in s.providers ==> after.providers[p].status == s.providers[p].status
  {
    var usage := U.Insert(s.usage, Entry(req, provider, tokens, cost), req.period).0;
    CountingKeepsStatus(s.(usage := usage), provider, TokenTotal(tokens), env.faults);
  }

  /**
   Which providers a request turns off: those of the candidates that fell back before the one at which
   the walk ended, so far as the writes got through. Every other provider keeps its status.
   */
  lemma RequestDisables(req: Request, env: Surroundings, s: State, ending: Ending)
    requires Placed(req, env, s)
    requires EndsAt(Selected(Candidates(env.mappings, s.providers), env.draws), env.attempts, ending)
    ensures var (after, ordered) := (Serve(req, env, s).0, Selected(Candidates(env.mappings, s.providers), env.draws));
            && after.providers.Keys == s.providers.Keys
            && forall p :: p in s.providers ==>
                 after.providers[p].status == if TurnedOff(ordered, env.attempts, PassedOver(ordered, ending), p)
                                              then P.Disabled else s.providers[p].status
  {
    var candidates := Candidates(env.mappings, s.providers);
    WalkEndsAt(env, s);
    EndIsUnique(Selected(candidates, env.draws), env.attempts, WalkOf(candidates, env), ending);
    FailoverTrace(candidates, env.draws, env.attempts, s.providers, ending);
    ServeEnds(req, env, s);
    if AtEndResult(req, env, s).outcome.Done? && Ending(req, env, s).SettleHold? {
      var (provider, tokens) := Answerer(req, env, s);
      RecordKeepsStatus(req, provider, tokens, Charged(req, env, s), env, Unrecorded(req, env, s));
    }
  }

  // ----- which answer, and which error -----

  /** Some candidate answers. */
  ghost predicate SomeoneAnswers(req: Request, env: Surroundings, s: State)
    requires DrawsFit(env, s)
  {
    exists k :: AnsweredBy(req, env, s, k)
  }

  /** The walk never ends for want of a candidate, since there is one. */
  lemma EndingIs(req: Request, env: Surroundings, s: State)
    requires DrawsFit(env, s) && Candidates(env.mappings, s.providers) != []
    ensures var ending := WalkOf(Candidates(env.mappings, s.providers), env);
            && (ending.Answered? <==> SomeoneAnswers(req, env, s))
            && ending != Exhausted(false)
  {
    var candidates := Candidates(env.mappings, s.providers);
    WalkEndsAt(env, s);
    AllKnown(candidates, env.draws);
    if WalkOf(candidates, env).Answered? {
      assert AnsweredBy(req, env, s, WalkOf(candidates, env).at);
    }
    if k :| AnsweredBy(req, env, s, k) {
      AnswerIsUnique(req, env, s, k);
    }
  }

  /** The request asks for what there is, and the lookups get through. */
  ghost predicate Sensible(req: Request, env: Surroundings) {
    !req.stream && !env.faults.lookup && req.model in env.models
  }

  ghost predicate SomeoneActive(env: Surroundings, s: State) {
    exists c :: c in env.mappings && IsActive(c, s.providers)
  }

  lemma PlacedIff(req: Request, env: Surroundings, s: State)
    requires DrawsFit(env, s) && WellFormed(s.ledger)
    ensures Admitted(req, env, s) <==> Sensible(req, env) && SomeoneActive(env, s)
    ensures Placed(req, env, s)
       <==> && Admitted(req, env, s) && !env.faults.place && Covered(req, env.models[req.model], env, s.ledger)
            && req.holdId !in AtHold(env, s).holds
  {
    CandidatesExistIff(env.mappings, s.providers);
    if Admitted(req, env, s) && !env.faults.place {
      HoldRefusedIff(req, env.models[req.model], env, s.ledger);
    }
  }

  /** The answer to a request whose hold is placed. */
  lemma PlacedAnswer(req: Request, env: Surroundings, s: State)
    requires Placed(req, env, s)
    ensures Serve(req, env, s).1
            == if !SomeoneAnswers(req, env, s) then Error(Upstream)
               else if AtEndResult(req, env, s).outcome.Done? && !env.faults.insert && !U.HasId(s.usage.log, req.entryId)
               then Answer else Error(Internal)
  {
    EndingIs(req, env, s);
    DisablingMovesNoQuota(req, env, s);
  }

  /**
   Which answer a request gets, whatever it finds. Bad requests and missing providers are reported just
   as such; insufficient credits exactly if the account is missing, its balance is below the estimate, or
   another task's operation on it is accepted before the hold commits; an upstream error exactly if the
   hold is placed and no candidate answers; and the answer exactly if some candidate answers, the hold is
   settled and the log entry goes in. Everything else is an internal error.
   */
  lemma ResponseIs(req: Request, env: Surroundings, s: State)
    requires DrawsFit(env, s) && WellFormed(s.ledger)
    ensures Serve(req, env, s).1
            == if req.stream then Error(BadRequest)
               else if env.faults.lookup then Error(Internal)
               else if req.model !in env.models then Error(BadRequest)
               else if !SomeoneActive(env, s) then Error(NoProvider)
               else if env.faults.place then Error(Internal)
               else if !Covered(req, env.models[req.model], env, s.ledger) then Error(InsufficientCredits)
               else if req.holdId in AtHold(env, s).holds then Error(Internal)
               else if !SomeoneAnswers(req, env, s) then Error(Upstream)
               else if AtEndResult(req, env, s).outcome.Done? && !env.faults.insert && !U.HasId(s.usage.log, req.entryId)
               then Answer else Error(Internal)
  {
    PlacedIff(req, env, s);
    if Placed(req, env, s) {
      PlacedAnswer(req, env, s);
    } else if Admitted(req, env, s) && !env.faults.place {
      HoldRefusedIff(req, env.models[req.model], env, s.ledger);
    }
  }
}
