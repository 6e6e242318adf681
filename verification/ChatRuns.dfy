/**
 The request function of `Chat` against the step machine of `Reconciliation`: serving one request is
 a run of that machine, so what is proved about all its runs holds of requests.

 The request's own transactions have number 0. Each operation of another task that commits while the
 request runs is a transaction of its own, number 1.
 */
module ChatRuns {
  import opened Chat
  import opened ChatAccounting
  import opened Common
  import opened Conservation
  import L = Ledger
  import P = Providers
  import R = Reconciliation
  import Rates
  import U = UsageLog

  function OthersSteps(ops: seq<L.Op>): seq<R.Step> {
    if ops == [] then []
    else
      OthersSteps(ops[..|ops| - 1])
      + [R.LedgerStep(L.Begin(1, ops[|ops| - 1])), R.LedgerStep(L.Commit(1))]
  }

  /** One of the request's transactions, with `ops` committed between its snapshot and its end. */
  function Transaction(op: L.Op, ops: seq<L.Op>, fault: bool): seq<R.Step> {
    [R.LedgerStep(L.Begin(0, op))] + OthersSteps(ops) + [R.LedgerStep(if fault then L.Abort(0) else L.Commit(0))]
  }

  /** What a world has noted about hold `h`: for whom it was asked, and what is owed for it. */
  function Asked(w: R.World, h: L.HoldId): Option<L.AccountId> {
    if h in w.asked then Some(w.asked[h]) else None
  }

  function OwedFor(w: R.World, h: L.HoldId): Option<R.Due> {
    if h in w.owed then Some(w.owed[h]) else None
  }

  /** Ledger steps leave these alone. */
  ghost predicate SameTables(w: R.World, w': R.World) {
    w'.usage == w.usage && w'.counted == w.counted && w'.uncounted == w.uncounted
  }

  /** `ops` run one by one place no hold `h`, or `h` is there and none of them resolves it. */
  ghost predicate LeavesAlone(ops: seq<L.Op>, db: L.Database, h: L.HoldId) {
    || h !in L.Replay(ops, db).holds
    || (h in db.holds && forall op :: op in ops ==> Foreign(op, h))
  }

  lemma NotesKept(w: R.World, op: L.Op, h: L.HoldId)
    requires h !in L.Atomic(op, w.sys.db).db.holds || (h in w.sys.db.holds && Foreign(op, h))
    ensures Asked(R.RunAlone(w, op), h) == Asked(w, h) && OwedFor(R.RunAlone(w, op), h) == OwedFor(w, h)
  {
  }

  lemma NotingKeepsTables(w: R.World, op: L.Op)
    ensures R.Noted(w, op).sys == w.sys && SameTables(w, R.Noted(w, op))
  {
  }

  lemma AloneRunsLedger(w: R.World, op: L.Op)
    ensures var w' := R.RunAlone(w, op);
            w'.sys.db == L.Atomic(op, w.sys.db).db && w'.sys.open == w.sys.open && SameTables(w, w')
  {
    NotingKeepsTables(w.(sys := R.RunAlone(w, op).sys), op);
  }

  lemma OthersNext(w: R.World, ops: seq<L.Op>)
    requires ops != []
    requires 1 !in R.RunFrom(w, OthersSteps(ops[..|ops| - 1])).sys.open
    ensures R.RunFrom(w, OthersSteps(ops))
            == R.RunAlone(R.RunFrom(w, OthersSteps(ops[..|ops| - 1])), ops[|ops| - 1])
  {
    var init, last := ops[..|ops| - 1], ops[|ops| - 1];
    R.RunFromAppend(w, OthersSteps(init), [R.LedgerStep(L.Begin(1, last)), R.LedgerStep(L.Commit(1))]);
    R.Alone(R.RunFrom(w, OthersSteps(init)), 1, last);
  }

  lemma HoldsStay(op: L.Op, db: L.Database)
    ensures db.holds.Keys <= L.Atomic(op, db).db.holds.Keys
  {
  }

  lemma LeavesAloneInit(ops: seq<L.Op>, db: L.Database, h: L.HoldId)
    requires ops != [] && LeavesAlone(ops, db, h)
    ensures var init, before := ops[..|ops| - 1], L.Replay(ops[..|ops| - 1], db);
            && LeavesAlone(init, db, h)
            && (h !in L.Replay(ops, db).holds || (h in before.holds && Foreign(ops[|ops| - 1], h)))
  {
    var init, last := ops[..|ops| - 1], ops[|ops| - 1];
    HoldsStay(last, L.Replay(init, db));
    assert ops == init + [last];
    if h in db.holds && forall op :: op in ops ==> Foreign(op, h) {
      assert Foreign(last, h);
      HoldUntouched(init, db, h);
    }
  }

  /** The other tasks' transactions run the ledger forward and touch nothing of the request's. */
  lemma {:induction false} OthersRun(w: R.World, ops: seq<L.Op>, h: L.HoldId)
    requires 1 !in w.sys.open && LeavesAlone(ops, w.sys.db, h)
    ensures var w' := R.RunFrom(w, OthersSteps(ops));
            && w'.sys.db == L.Replay(ops, w.sys.db) && w'.sys.open == w.sys.open
            && SameTables(w, w') && Asked(w', h) == Asked(w, h) && OwedFor(w', h) == OwedFor(w, h)
  {
    if ops != [] {
      var init, last := ops[..|ops| - 1], ops[|ops| - 1];
      LeavesAloneInit(ops, w.sys.db, h);
      OthersRun(w, init, h);
      var mid := R.RunFrom(w, OthersSteps(init));
      OthersNext(w, ops);
      AloneRunsLedger(mid, last);
      NotesKept(mid, last, h);
    }
  }

  /** The world when transaction 0 is to end. */
  ghost predicate Pending(w: R.World, mid: R.World, op: L.Op, ops: seq<L.Op>, h: L.HoldId) {
    && mid.sys.db == L.Replay(ops, w.sys.db) && mid.sys.open == w.sys.open[0 := L.Txn(op, w.sys.db)]
    && SameTables(w, mid) && Asked(mid, h) == Asked(w, h) && OwedFor(mid, h) == OwedFor(w, h)
  }

  lemma BeginRun(w: R.World, op: L.Op, ops: seq<L.Op>, h: L.HoldId)
    requires 0 !in w.sys.open && 1 !in w.sys.open && LeavesAlone(ops, w.sys.db, h)
    ensures Pending(w, R.RunFrom(w, [R.LedgerStep(L.Begin(0, op))] + OthersSteps(ops)), op, ops, h)
  {
    var begin := R.LedgerStep(L.Begin(0, op));
    R.RunFromNext(w, [], begin);
    assert [] + [begin] == [begin];
    var w1 := R.RunFrom(w, [begin]);
    assert w1 == R.Next(w, begin);
    R.RunFromAppend(w, [begin], OthersSteps(ops));
    OthersRun(w1, ops, h);
  }

  /** What transaction 0 leaves: the ledger as `RunTx` has it, and a note if it was accepted. */
  ghost predicate Ended(w: R.World, w': R.World, op: L.Op, ops: seq<L.Op>, fault: bool) {
    var now := L.Replay(ops, w.sys.db);
    var r := if fault then L.Result(now, L.Failed) else L.RunTx(op, w.sys.db, now);
    && w'.sys.db == r.db && w'.sys.open == w.sys.open && SameTables(w, w')
    && (op.PlaceHold? ==> OwedFor(w', op.holdId) == OwedFor(w, op.holdId)
                          && Asked(w', op.holdId) == if r.outcome.Done? then Some(op.account) else Asked(w, op.holdId))
    && (op.SettleHold? ==> Asked(w', op.holdId) == Asked(w, op.holdId)
                           && OwedFor(w', op.holdId)
                              == if r.outcome.Done? then Some(R.Due(Asked(w, op.holdId).GetOr(""), op.actualCost))
                                 else OwedFor(w, op.holdId))
    && (op.ReleaseHold? ==> Asked(w', op.holdId) == Asked(w, op.holdId) && OwedFor(w', op.holdId) == OwedFor(w, op.holdId))
  }

  lemma AbortRun(w: R.World, mid: R.World, op: L.Op, ops: seq<L.Op>)
    requires 0 !in w.sys.open && (op.PlaceHold? || op.SettleHold? || op.ReleaseHold?)
    requires Pending(w, mid, op, ops, op.holdId)
    ensures Ended(w, R.Next(mid, R.LedgerStep(L.Abort(0))), op, ops, true)
  {
    assert mid.sys.open - {0} == w.sys.open;
  }

  /** How transaction 0 commits. */
  lemma CommitMeans(mid: R.World, op: L.Op, snap: L.Database)
    requires 0 in mid.sys.open && mid.sys.open[0] == L.Txn(op, snap)
    ensures var r, w' := L.RunTx(op, snap, mid.sys.db), R.Next(mid, R.LedgerStep(L.Commit(0)));
            && w'.sys.db == r.db && w'.sys.open == mid.sys.open - {0}
            && w' == if r.outcome.Done? then R.Noted(mid.(sys := w'.sys), op) else mid.(sys := w'.sys)
  {
  }

  lemma CommitRun(w: R.World, mid: R.World, op: L.Op, ops: seq<L.Op>)
    requires 0 !in w.sys.open && (op.PlaceHold? || op.SettleHold? || op.ReleaseHold?)
    requires Pending(w, mid, op, ops, op.holdId)
    ensures Ended(w, R.Next(mid, R.LedgerStep(L.Commit(0))), op, ops, false)
  {
    assert mid.sys.open - {0} == w.sys.open;
    CommitMeans(mid, op, w.sys.db);
  }

  lemma TransactionRun(w: R.World, op: L.Op, ops: seq<L.Op>, fault: bool)
    requires 0 !in w.sys.open && 1 !in w.sys.open && (op.PlaceHold? || op.SettleHold? || op.ReleaseHold?)
    requires LeavesAlone(ops, w.sys.db, op.holdId)
    ensures Ended(w, R.RunFrom(w, Transaction(op, ops, fault)), op, ops, fault)
  {
    var steps := [R.LedgerStep(L.Begin(0, op))] + OthersSteps(ops);
    BeginRun(w, op, ops, op.holdId);
    R.RunFromNext(w, steps, R.LedgerStep(if fault then L.Abort(0) else L.Commit(0)));
    if fault {
      AbortRun(w, R.RunFrom(w, steps), op, ops);
    } else {
      CommitRun(w, R.RunFrom(w, steps), op, ops);
    }
  }

  // ----- the whole request -----

  /** The ledger part: the hold, the wait for the upstream, the settlement or release. */
  function LedgerPart(req: Request, env: Surroundings, s: State): seq<R.Step>
    requires DrawsFit(env, s) && req.model in env.models
  {
    Transaction(HoldOp(req, env), env.others.placing, false)
    + OthersSteps(env.others.serving)
    + Transaction(Ending(req, env, s), env.others.resolving, env.faults.resolve)
  }

  /** The request is answered, so its log entry is written and its tokens may be counted. */
  ghost predicate Recorded(req: Request, env: Surroundings, s: State)
    requires DrawsFit(env, s) && req.model in env.models
  {
    && AtEndResult(req, env, s).outcome.Done? && Ending(req, env, s).SettleHold?
    && !env.faults.insert && !U.HasId(s.usage.log, req.entryId)
  }

  /** The statement that counts the tokens gets through. */
  ghost predicate CountsTokens(req: Request, env: Surroundings, s: State)
    requires DrawsFit(env, s) && req.model in env.models && Recorded(req, env, s)
  {
    !env.faults.addUsage && Answerer(req, env, s).0 in s.providers
  }

  /** The tables part. */
  ghost function TablesPart(req: Request, env: Surroundings, s: State): seq<R.Step>
    requires DrawsFit(env, s) && req.model in env.models
  {
    if !Recorded(req, env, s) then []
    else
      var (provider, tokens) := Answerer(req, env, s);
      [AggregateStep(req, provider, tokens)]
      + (if env.faults.addUsage || provider !in s.providers then [] else [R.Count(req.holdId)])
  }

  /** The machine is in the state the request finds, and knows nothing of its hold yet. */
  ghost predicate Matches(w: R.World, s: State, h: L.HoldId) {
    && w.sys.db == s.ledger && w.usage == s.usage && 0 !in w.sys.open && 1 !in w.sys.open
    && h !in w.owed && h !in w.uncounted
  }

  lemma LedgerPartRun(req: Request, env: Surroundings, s: State, past: seq<L.Op>, w: R.World)
    requires Placed(req, env, s) && Lawful(req, env, s, past) && Matches(w, s, req.holdId)
    ensures var w' := R.RunFrom(w, LedgerPart(req, env, s));
            && w'.sys.db == AtEndResult(req, env, s).db && w'.sys.open == w.sys.open && SameTables(w, w')
            && OwedFor(w', req.holdId)
               == if AtEndResult(req, env, s).outcome.Done? && Ending(req, env, s).SettleHold?
                  then Some(R.Due(req.account, Ending(req, env, s).actualCost)) else None
  {
    var h, place, op := req.holdId, HoldOp(req, env), Ending(req, env, s);
    var part1 := Transaction(place, env.others.placing, false);
    var part2 := OthersSteps(env.others.serving);
    var part3 := Transaction(op, env.others.resolving, env.faults.resolve);
    HoldIsPlaced(req, env, s, past);
    FreshBefore(place, AtHold(env, s));
    TransactionRun(w, place, env.others.placing, false);
    var w1 := R.RunFrom(w, part1);
    assert w1.sys.db == WithHold(req, env, s);
    OthersRun(w1, env.others.serving, h);
    var w2 := R.RunFrom(w1, part2);
    HoldStandsToTheEnd(req, env, s, past);
    TransactionRun(w2, op, env.others.resolving, env.faults.resolve);
    R.RunFromAppend(w, part1, part2);
    R.RunFromAppend(w, part1 + part2, part3);
  }

  lemma FreshBefore(place: L.Op, db: L.Database)
    requires place.PlaceHold? && L.Atomic(place, db).outcome.Done?
    ensures place.holdId !in db.holds
    ensures place.holdId in L.Atomic(place, db).db.holds
  {
  }

  /** The two steps on the tables, once the hold is settled. */
  ghost predicate Counts(w: R.World, w': R.World, provider: P.ProviderId, tokens: int) {
    forall p :: R.CountedFor(w', p) == R.CountedFor(w, p) + (if p == provider then tokens else 0)
  }

  lemma AggregateRun(w: R.World, step: R.Step)
    requires step.Aggregate? && step.hold in w.owed && !U.HasId(w.usage.log, step.entryId)
    ensures var w' := R.Next(w, step);
            && w'.usage == U.Insert(w.usage, R.Entry(w.owed[step.hold], step), step.period).0
            && w'.sys == w.sys && w'.counted == w.counted && step.hold !in w'.owed
            && step.hold in w'.uncounted
            && w'.uncounted[step.hold] == R.Tokens(step.provider, WrapI64(step.prompt + step.completion))
  {
  }

  lemma CountRun(w: R.World, h: L.HoldId)
    requires h in w.uncounted
    ensures var w' := R.Next(w, R.Count(h));
            && w'.sys == w.sys && w'.usage == w.usage && w'.owed == w.owed && h !in w'.uncounted
            && Counts(w, w', w.uncounted[h].provider, w.uncounted[h].total)
  {
  }

  lemma AggregateThenCount(w: R.World, step: R.Step, counts: bool)
    requires step.Aggregate? && step.hold in w.owed && !U.HasId(w.usage.log, step.entryId)
    ensures var total := WrapI64(step.prompt + step.completion);
            var w' := R.RunFrom(w, [step] + (if counts then [R.Count(step.hold)] else []));
            && w'.usage == U.Insert(w.usage, R.Entry(w.owed[step.hold], step), step.period).0
            && w'.sys == w.sys && step.hold !in w'.owed && (step.hold in w'.uncounted <==> !counts)
            && Counts(w, w', step.provider, if counts then total else 0)
  {
    AggregateRun(w, step);
    R.RunFromNext(w, [], step);
    assert [] + [step] == [step] == [step] + [];
    if counts {
      R.RunFromNext(w, [step], R.Count(step.hold));
      CountRun(R.Next(w, step), step.hold);
    }
  }

  function AggregateStep(req: Request, provider: P.ProviderId, tokens: Rates.UsageTokens): (step: R.Step)
    ensures step.Aggregate?
  {
    R.Aggregate(req.holdId, req.entryId, provider, tokens.promptTokens, tokens.completionTokens, req.period)
  }

  /** The entry the machine writes for a settled hold is the one the handler writes. */
  lemma SameEntry(req: Request, provider: P.ProviderId, tokens: Rates.UsageTokens, cost: int)
    ensures R.Entry(R.Due(req.account, cost), AggregateStep(req, provider, tokens)) == Entry(req, provider, tokens, cost)
  {
  }

  lemma TablesSteps(req: Request, env: Surroundings, s: State)
    requires DrawsFit(env, s) && req.model in env.models && Recorded(req, env, s)
    ensures var (provider, tokens) := Answerer(req, env, s);
            && TablesPart(req, env, s)
               == [AggregateStep(req, provider, tokens)]
                  + (if !env.faults.addUsage && provider in s.providers then [R.Count(req.holdId)] else [])
            && Charged(req, env, s) == Ending(req, env, s).actualCost
  {
  }

  /** What writing one settled request down comes to. */
  lemma WritingDownRun(req: Request, provider: P.ProviderId, tokens: Rates.UsageTokens, cost: int, counts: bool, w: R.World)
    requires OwedFor(w, req.holdId) == Some(R.Due(req.account, cost)) && !U.HasId(w.usage.log, req.entryId)
    ensures var w' := R.RunFrom(w, [AggregateStep(req, provider, tokens)] + (if counts then [R.Count(req.holdId)] else []));
            && w'.sys == w.sys && req.holdId !in w'.owed && (req.holdId in w'.uncounted <==> !counts)
            && w'.usage == U.Insert(w.usage, Entry(req, provider, tokens, cost), req.period).0
            && Counts(w, w', provider, if counts then TokenTotal(tokens) else 0)
  {
    SameEntry(req, provider, tokens, cost);
    AggregateThenCount(w, AggregateStep(req, provider, tokens), counts);
  }

  /** What the request's part of the tables comes to. */
  lemma TablesPartRun(req: Request, env: Surroundings, s: State, w: R.World)
    requires DrawsFit(env, s) && req.model in env.models && Recorded(req, env, s) && w.usage == s.usage
    requires OwedFor(w, req.holdId) == Some(R.Due(req.account, Ending(req, env, s).actualCost))
    ensures var (provider, tokens) := Answerer(req, env, s);
            var counts := !env.faults.addUsage && provider in s.providers;
            var w' := R.RunFrom(w, TablesPart(req, env, s));
            && w'.sys == w.sys && req.holdId !in w'.owed
            && (req.holdId in w'.uncounted <==> !counts)
            && w'.usage == U.Insert(s.usage, Entry(req, provider, tokens, Charged(req, env, s)), req.period).0
            && Counts(w, w', provider, if counts then TokenTotal(tokens) else 0)
  {
    var (provider, tokens) := Answerer(req, env, s);
    TablesSteps(req, env, s);
    WritingDownRun(req, provider, tokens, Charged(req, env, s), !env.faults.addUsage && provider in s.providers, w);
  }

  lemma RecordWrites(req: Request, provider: P.ProviderId, tokens: Rates.UsageTokens, cost: int, env: Surroundings, s: State)
    requires !env.faults.insert && !U.HasId(s.usage.log, req.entryId)
    ensures Record(req, provider, tokens, cost, env, s).0.usage
            == U.Insert(s.usage, Entry(req, provider, tokens, cost), req.period).0
  {
  }

  /** How a request that is written down leaves the usage tables and the quotas. */
  lemma RecordedMovesQuota(req: Request, env: Surroundings, s: State)
    requires Placed(req, env, s) && Recorded(req, env, s)
    ensures var (after, answerer) := (Serve(req, env, s).0, Answerer(req, env, s));
            && after.usage == U.Insert(s.usage, Entry(req, answerer.0, answerer.1, Charged(req, env, s)), req.period).0
            && forall p :: QuotaUsed(after, p) == QuotaUsed(s, p)
                 + (if p == answerer.0 && CountsTokens(req, env, s) then TokenTotal(answerer.1) else 0)
  {
    var (provider, tokens) := Answerer(req, env, s);
    ServeEnds(req, env, s);
    DisablingMovesNoQuota(req, env, s);
    RecordWrites(req, provider, tokens, Charged(req, env, s), env, Unrecorded(req, env, s));
    RecordBills(req, provider, tokens, Charged(req, env, s), env, Unrecorded(req, env, s));
  }

  /** Any other request leaves both alone. */
  lemma UnrecordedMovesNoQuota(req: Request, env: Surroundings, s: State)
    requires Placed(req, env, s) && !Recorded(req, env, s)
    ensures Serve(req, env, s).0.usage == s.usage && forall p :: QuotaUsed(Serve(req, env, s).0, p) == QuotaUsed(s, p)
  {
    ServeEnds(req, env, s);
    DisablingMovesNoQuota(req, env, s);
    if AtEndResult(req, env, s).outcome.Done? && Ending(req, env, s).SettleHold? {
      var (provider, tokens) := Answerer(req, env, s);
      RecordBills(req, provider, tokens, Charged(req, env, s), env, Unrecorded(req, env, s));
    }
  }

  /** What serving the request must come to, in the machine's terms. */
  ghost predicate IsServed(req: Request, env: Surroundings, s: State, after: State, w: R.World, w': R.World)
    requires DrawsFit(env, s) && req.model in env.models
  {
    && w'.sys.db == after.ledger && w'.usage == after.usage && w'.sys.open == w.sys.open
    && (forall p :: R.CountedFor(w', p) - R.CountedFor(w, p) == QuotaUsed(after, p) - QuotaUsed(s, p))
    && (req.holdId in w'.owed
        <==> AtEndResult(req, env, s).outcome.Done? && Ending(req, env, s).SettleHold? && !Recorded(req, env, s))
    && (req.holdId in w'.uncounted <==> Recorded(req, env, s) && !CountsTokens(req, env, s))
  }

  lemma RecordedIsServed(req: Request, env: Surroundings, s: State, w: R.World, mid: R.World)
    requires Placed(req, env, s) && Matches(w, s, req.holdId) && Recorded(req, env, s)
    requires mid.sys.db == AtEndResult(req, env, s).db && mid.sys.open == w.sys.open && SameTables(w, mid)
    requires OwedFor(mid, req.holdId) == Some(R.Due(req.account, Ending(req, env, s).actualCost))
    ensures IsServed(req, env, s, Serve(req, env, s).0, w, R.RunFrom(mid, TablesPart(req, env, s)))
  {
    ServeLeaves(req, env, s);
    RecordedMovesQuota(req, env, s);
    TablesPartRun(req, env, s, mid);
  }

  lemma UnrecordedIsServed(req: Request, env: Surroundings, s: State, w: R.World, mid: R.World)
    requires Placed(req, env, s) && Matches(w, s, req.holdId) && !Recorded(req, env, s)
    requires mid.sys.db == AtEndResult(req, env, s).db && mid.sys.open == w.sys.open && SameTables(w, mid)
    requires OwedFor(mid, req.holdId).Some?
        <==> AtEndResult(req, env, s).outcome.Done? && Ending(req, env, s).SettleHold?
    ensures IsServed(req, env, s, Serve(req, env, s).0, w, mid)
  {
    ServeLeaves(req, env, s);
    UnrecordedMovesNoQuota(req, env, s);
  }

  /**
   Serving a request is a run of the reconciliation machine: the steps listed take the world the
   request finds to one with the ledger and the usage tables it leaves, and count for each provider
   what it adds to the quota. Something is owed for the hold afterwards exactly if it was settled and
   not written down, and its tokens stay uncounted exactly if it was written down and they were not
   counted.
   */
  lemma ServeIsARun(req: Request, env: Surroundings, s: State, past: seq<L.Op>, w: R.World)
    requires Placed(req, env, s) && Lawful(req, env, s, past) && Matches(w, s, req.holdId)
    ensures IsServed(req, env, s, Serve(req, env, s).0, w,
                     R.RunFrom(w, LedgerPart(req, env, s) + TablesPart(req, env, s)))
  {
    var mid := R.RunFrom(w, LedgerPart(req, env, s));
    LedgerPartRun(req, env, s, past, w);
    R.RunFromAppend(w, LedgerPart(req, env, s), TablesPart(req, env, s));
    if Recorded(req, env, s) {
      RecordedIsServed(req, env, s, w, mid);
    } else {
      UnrecordedIsServed(req, env, s, w, mid);
    }
  }
}
