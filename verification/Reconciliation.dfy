/**
 The books against each other, over every interleaving of any number of requests: the transaction
 log, the account and provider summaries, and the providers' quota counters.

 A request settles its hold, then inserts and aggregates its log entry, then counts its tokens; any
 other steps may come between, and a request may stop for good after any of them. A hold that has
 been settled but not yet aggregated is `owed`; one aggregated but not yet counted is `uncounted`.
 */
module Reconciliation {
  import opened Common
  import opened Conservation
  import L = Ledger
  import U = UsageLog

  type AccountId = L.AccountId
  type HoldId = L.HoldId
  type ProviderId = string

  datatype Due = Due(account: AccountId, cost: int)

  datatype Tokens = Tokens(provider: ProviderId, total: int)

  /** `asked` is each request's own record of the account it placed its hold for. */
  datatype World = World(sys: L.System, asked: map<HoldId, AccountId>, owed: map<HoldId, Due>, usage: U.Tables,
                         uncounted: map<HoldId, Tokens>, counted: map<ProviderId, int>)

  datatype Step =
    | LedgerStep(step: L.Step)
    | Aggregate(hold: HoldId, entryId: string, provider: ProviderId, prompt: int, completion: int, period: string)
    | Count(hold: HoldId)

  const START := World(L.START, map[], map[], U.EMPTY, map[], map[])

  /** The step commits an operation that is accepted. */
  predicate Commits(s: L.System, step: L.Step) {
    step.Commit? && step.id in s.open && L.RunTx(s.open[step.id].op, s.open[step.id].snapshot, s.db).outcome.Done?
  }

  function Entry(due: Due, step: Step): U.UsageEntry
    requires step.Aggregate?
  {
    U.UsageEntry(step.entryId, due.account, Some(step.provider), Some(step.prompt), Some(step.completion),
                 Some(WrapI64(step.prompt + step.completion)), due.cost)
  }

  /** What a request notes when an operation of its own commits. */
  function Noted(w: World, op: L.Op): World {
    match op
    case PlaceHold(a, _, h) => w.(asked := w.asked[h := a])
    case SettleHold(h, cost) => w.(owed := w.owed[h := Due(if h in w.asked then w.asked[h] else "", cost)])
    case _ => w
  }

  function Next(w: World, step: Step): World {
    match step
    case LedgerStep(st) =>
      var w' := w.(sys := L.Next(w.sys, st));
      if Commits(w.sys, st) then Noted(w', w.sys.open[st.id].op) else w'
    case Aggregate(h, id, provider, prompt, completion, period) =>
      if h !in w.owed || U.HasId(w.usage.log, id) then w
      else
        w.(usage := U.Insert(w.usage, Entry(w.owed[h], step), period).0,
           owed := w.owed - {h},
           uncounted := w.uncounted[h := Tokens(provider, WrapI64(prompt + completion))])
    case Count(h) =>
      if h !in w.uncounted then w
      else
        var t := w.uncounted[h];
        w.(counted := w.counted[t.provider := CountedFor(w, t.provider) + t.total], uncounted := w.uncounted - {h})
  }

  function Run(steps: seq<Step>): World {
    if steps == [] then START else Next(Run(steps[..|steps| - 1]), steps[|steps| - 1])
  }

  // ----- the quantities that must agree -----

  /** The sum of the log rows labelled "usage" for account `a`; a charge is negative. */
  function UsageDeltas(log: seq<L.TxRow>, a: AccountId): int {
    if log == [] then 0
    else
      var row := log[|log| - 1];
      UsageDeltas(log[..|log| - 1], a) + (if row.account == a && row.reason == Some("usage") then row.delta else 0)
  }

  /** What administrators' adjustments add to account `a`, and what those labelled "usage" do. */
  function Adjusted(ops: seq<L.Op>, a: AccountId): int {
    if ops == [] then 0
    else
      var op := ops[|ops| - 1];
      Adjusted(ops[..|ops| - 1], a) + (if op.Adjust? && op.account == a then op.delta else 0)
  }

  function AdjustedAsUsage(ops: seq<L.Op>, a: AccountId): int {
    if ops == [] then 0
    else
      var op := ops[|ops| - 1];
      AdjustedAsUsage(ops[..|ops| - 1], a)
      + (if op.Adjust? && op.account == a && op.reason == Some("usage") then op.delta else 0)
  }

  ghost function Billed(w: World, a: AccountId): int {
    U.CreditsBilled(w.usage, a)
  }

  ghost function OwedRows(w: World, a: AccountId): map<HoldId, int> {
    map h | h in w.owed && w.owed[h].account == a :: w.owed[h].cost
  }

  ghost function Owed(w: World, a: AccountId): int {
    SumOver(OwedRows(w, a))
  }

  ghost function Used(w: World, p: ProviderId): int {
    U.TokensBilled(w.usage, p)
  }

  function CountedFor(w: World, p: ProviderId): int {
    if p in w.counted then w.counted[p] else 0
  }

  ghost function UncountedRows(w: World, p: ProviderId): map<HoldId, int> {
    map h | h in w.uncounted && w.uncounted[h].provider == p :: w.uncounted[h].total
  }

  ghost function Uncounted(w: World, p: ProviderId): int {
    SumOver(UncountedRows(w, p))
  }

  /** The ledger side: a hold owed or uncounted is settled, and requests know their holds' accounts. */
  ghost predicate Tracked(w: World) {
    && (forall h :: h in w.sys.db.holds ==> h in w.asked && w.asked[h] == w.sys.db.holds[h].account)
    && (forall h :: h in w.owed || h in w.uncounted ==> h in w.sys.db.holds && w.sys.db.holds[h].status == L.Settled)
    && w.owed.Keys !! w.uncounted.Keys
  }

  ghost predicate AccountAgrees(w: World, a: AccountId) {
    && SumDeltas(w.sys.db.log, a) == Adjusted(w.sys.committed, a) - Billed(w, a) - Owed(w, a)
    && UsageDeltas(w.sys.db.log, a) == AdjustedAsUsage(w.sys.committed, a) - Billed(w, a) - Owed(w, a)
  }

  ghost predicate ProviderAgrees(w: World, p: ProviderId) {
    Used(w, p) == CountedFor(w, p) + Uncounted(w, p)
  }

  ghost predicate Agrees(w: World) {
    && Tracked(w)
    && (forall a :: AccountAgrees(w, a))
    && (forall p :: ProviderAgrees(w, p))
  }

  // ----- each kind of step keeps them in agreement -----

  lemma UsageDeltasAppend(log: seq<L.TxRow>, row: L.TxRow, a: AccountId)
    ensures UsageDeltas(log + [row], a)
            == UsageDeltas(log, a) + (if row.account == a && row.reason == Some("usage") then row.delta else 0)
  {
    assert (log + [row])[..|log|] == log;
  }

  /** How much an accepted operation moves the rows labelled "usage". */
  function UsageCharge(op: L.Op, db: L.Database, a: AccountId): int {
    match op
    case Adjust(account, delta, reason, _) => if account == a && reason == Some("usage") then delta else 0
    case SettleHold(h, cost) => if h in db.holds && db.holds[h].account == a then -cost else 0
    case _ => 0
  }

  lemma LogMoves(op: L.Op, db: L.Database, a: AccountId)
    requires Legal(op) && L.Atomic(op, db).outcome.Done?
    ensures SumDeltas(L.Atomic(op, db).db.log, a) == SumDeltas(db.log, a) + Charge(op, db, a)
    ensures UsageDeltas(L.Atomic(op, db).db.log, a) == UsageDeltas(db.log, a) + UsageCharge(op, db, a)
  {
    var after := L.Atomic(op, db).db;
    if op.Adjust? || op.SettleHold? {
      SumDeltasAppend(db.log, after.log[|db.log|], a);
      UsageDeltasAppend(db.log, after.log[|db.log|], a);
    }
  }

  lemma AdjustedAppend(ops: seq<L.Op>, op: L.Op, a: AccountId)
    ensures Adjusted(ops + [op], a) == Adjusted(ops, a) + (if op.Adjust? && op.account == a then op.delta else 0)
    ensures AdjustedAsUsage(ops + [op], a)
            == AdjustedAsUsage(ops, a)
               + (if op.Adjust? && op.account == a && op.reason == Some("usage") then op.delta else 0)
  {
    assert (ops + [op])[..|ops|] == ops;
  }

  /** A row in which `h` owes is added or taken away. */
  lemma OwedWrite(w: World, w': World, h: HoldId, due: Due, a: AccountId)
    requires h !in w.owed && w'.owed == w.owed[h := due]
    ensures Owed(w', a) == Owed(w, a) + (if due.account == a then due.cost else 0)
  {
    if due.account == a {
      assert OwedRows(w', a) == OwedRows(w, a)[h := due.cost];
      SumOverUpdate(OwedRows(w, a), h, due.cost);
    } else {
      assert OwedRows(w', a) == OwedRows(w, a);
    }
  }

  lemma UncountedWrite(w: World, w': World, h: HoldId, t: Tokens, p: ProviderId)
    requires h !in w.uncounted && w'.uncounted == w.uncounted[h := t]
    ensures Uncounted(w', p) == Uncounted(w, p) + (if t.provider == p then t.total else 0)
  {
    if t.provider == p {
      assert UncountedRows(w', p) == UncountedRows(w, p)[h := t.total];
      SumOverUpdate(UncountedRows(w, p), h, t.total);
    } else {
      assert UncountedRows(w', p) == UncountedRows(w, p);
    }
  }

  lemma AggregateAgrees(w: World, step: Step)
    requires Agrees(w) && step.Aggregate? && step.hold in w.owed && !U.HasId(w.usage.log, step.entryId)
    ensures Agrees(Next(w, step))
  {
    var w' := Next(w, step);
    forall a
      ensures AccountAgrees(w', a)
    {
      assert AccountAgrees(w, a);
      AggregateAccount(w, w', step, a);
    }
    forall p
      ensures ProviderAgrees(w', p)
    {
      assert ProviderAgrees(w, p);
      AggregateProvider(w, w', step, p);
    }
  }

  lemma AggregateAccount(w: World, w': World, step: Step, a: AccountId)
    requires step.Aggregate? && step.hold in w.owed && !U.HasId(w.usage.log, step.entryId) && AccountAgrees(w, a)
    requires w'.sys == w.sys && w'.owed == w.owed - {step.hold}
    requires w'.usage == U.Insert(w.usage, Entry(w.owed[step.hold], step), step.period).0
    ensures AccountAgrees(w', a)
  {
    assert w.owed == w'.owed[step.hold := w.owed[step.hold]];
    U.InsertMovesCredits(w.usage, Entry(w.owed[step.hold], step), step.period, a);
    OwedWrite(w', w, step.hold, w.owed[step.hold], a);
  }

  lemma AggregateProvider(w: World, w': World, step: Step, p: ProviderId)
    requires step.Aggregate? && step.hold in w.owed && !U.HasId(w.usage.log, step.entryId) && ProviderAgrees(w, p)
    requires step.hold !in w.uncounted && w'.counted == w.counted
    requires w'.uncounted == w.uncounted[step.hold := Tokens(step.provider, WrapI64(step.prompt + step.completion))]
    requires w'.usage == U.Insert(w.usage, Entry(w.owed[step.hold], step), step.period).0
    ensures ProviderAgrees(w', p)
  {
    U.InsertMovesTokens(w.usage, Entry(w.owed[step.hold], step), step.period, p);
    UncountedWrite(w, w', step.hold, w'.uncounted[step.hold], p);
  }

  lemma CountAgrees(w: World, h: HoldId)
    requires Agrees(w) && h in w.uncounted
    ensures Agrees(Next(w, Count(h)))
  {
    var w' := Next(w, Count(h));
    assert w.uncounted == w'.uncounted[h := w.uncounted[h]];
    forall a
      ensures AccountAgrees(w', a)
    {
      assert AccountAgrees(w, a);
      assert OwedRows(w', a) == OwedRows(w, a);
    }
    forall p
      ensures ProviderAgrees(w', p)
    {
      assert ProviderAgrees(w, p);
      UncountedWrite(w', w, h, w.uncounted[h], p);
    }
  }

  /** What an accepted operation does to the hold table. */
  function HoldsAfter(op: L.Op, holds: map<HoldId, L.Hold>): map<HoldId, L.Hold> {
    match op
    case PlaceHold(a, amount, h) => holds[h := L.Hold(a, amount, L.Held)]
    case SettleHold(h, _) => L.WithStatus(holds, h, L.Settled)
    case ReleaseHold(h) => L.WithStatus(holds, h, L.Released)
    case _ => holds
  }

  /** It is accepted only for a fresh hold, or for one that is still active. */
  predicate HoldReady(op: L.Op, holds: map<HoldId, L.Hold>) {
    match op
    case PlaceHold(_, _, h) => h !in holds
    case SettleHold(h, _) => h in holds && holds[h].status == L.Held
    case ReleaseHold(h) => h in holds && holds[h].status == L.Held
    case _ => true
  }

  lemma AcceptedMeans(op: L.Op, db: L.Database)
    requires L.Atomic(op, db).outcome.Done?
    ensures HoldReady(op, db.holds) && L.Atomic(op, db).db.holds == HoldsAfter(op, db.holds)
  {
  }

  /** Accepted operations leave holds that are owed or uncounted alone. */
  lemma CommitTracked(w: World, op: L.Op, sys: L.System)
    requires Tracked(w) && HoldReady(op, w.sys.db.holds) && sys.db.holds == HoldsAfter(op, w.sys.db.holds)
    ensures Tracked(Noted(w.(sys := sys), op))
  {
  }

  lemma CommitAccount(w: World, op: L.Op, sys: L.System, a: AccountId)
    requires AccountAgrees(w, a) && Tracked(w) && Legal(op) && L.Atomic(op, w.sys.db).outcome.Done?
    requires sys.db == L.Atomic(op, w.sys.db).db && sys.committed == w.sys.committed + [op]
    ensures AccountAgrees(Noted(w.(sys := sys), op), a)
  {
    var w' := Noted(w.(sys := sys), op);
    AcceptedMeans(op, w.sys.db);
    LogMoves(op, w.sys.db, a);
    AdjustedAppend(w.sys.committed, op, a);
    if op.SettleHold? {
      OwedWrite(w, w', op.holdId, w'.owed[op.holdId], a);
    } else {
      assert OwedRows(w', a) == OwedRows(w, a);
    }
  }

  lemma AcceptedAgrees(w: World, op: L.Op, sys: L.System)
    requires Agrees(w) && Legal(op) && L.Atomic(op, w.sys.db).outcome.Done?
    requires sys.db == L.Atomic(op, w.sys.db).db && sys.committed == w.sys.committed + [op]
    ensures Agrees(Noted(w.(sys := sys), op))
  {
    var w' := Noted(w.(sys := sys), op);
    AcceptedMeans(op, w.sys.db);
    CommitTracked(w, op, sys);
    forall a
      ensures AccountAgrees(w', a)
    {
      assert AccountAgrees(w, a);
      CommitAccount(w, op, sys, a);
    }
    forall p
      ensures ProviderAgrees(w', p)
    {
      assert ProviderAgrees(w, p);
      assert UncountedRows(w', p) == UncountedRows(w, p);
    }
  }

  /** A ledger step that commits an operation runs it atomically; any other changes neither tables nor log. */
  lemma LedgerStepMeans(s: L.System, st: L.Step)
    requires L.SnapshotsExtend(s)
    ensures Commits(s, st) ==> && L.Atomic(s.open[st.id].op, s.db).outcome.Done?
                               && L.Next(s, st).db == L.Atomic(s.open[st.id].op, s.db).db
                               && L.Next(s, st).committed == s.committed + [s.open[st.id].op]
    ensures !Commits(s, st) ==> L.Next(s, st).db == s.db && L.Next(s, st).committed == s.committed
  {
    if st.Commit? && st.id in s.open {
      L.CommitIsAtomic(s.open[st.id].op, s.open[st.id].snapshot, s.db);
    }
  }

  lemma SameBooks(w: World, w': World)
    requires Agrees(w) && w'.sys.db == w.sys.db && w'.sys.committed == w.sys.committed
    requires w' == w.(sys := w'.sys)
    ensures Agrees(w')
  {
    forall a
      ensures AccountAgrees(w', a)
    {
      assert AccountAgrees(w, a) && OwedRows(w', a) == OwedRows(w, a);
    }
    forall p
      ensures ProviderAgrees(w', p)
    {
      assert ProviderAgrees(w, p) && UncountedRows(w', p) == UncountedRows(w, p);
    }
  }

  lemma StepAgrees(w: World, step: Step)
    requires Agrees(w) && L.SnapshotsExtend(w.sys)
    requires step.LedgerStep? && Commits(w.sys, step.step) ==> Legal(w.sys.open[step.step.id].op)
    ensures Agrees(Next(w, step))
  {
    match step {
      case LedgerStep(st) =>
        LedgerStepMeans(w.sys, st);
        if Commits(w.sys, st) {
          AcceptedAgrees(w, w.sys.open[st.id].op, L.Next(w.sys, st));
        } else {
          SameBooks(w, Next(w, step));
        }
      case Aggregate(h, id, _, _, _, _) =>
        if h in w.owed && !U.HasId(w.usage.log, id) {
          AggregateAgrees(w, step);
        }
      case Count(h) =>
        if h in w.uncounted {
          CountAgrees(w, h);
        }
    }
  }

  // ----- every run -----

  function LedgerSteps(steps: seq<Step>): seq<L.Step> {
    if steps == [] then []
    else
      var last := steps[|steps| - 1];
      LedgerSteps(steps[..|steps| - 1]) + (if last.LedgerStep? then [last.step] else [])
  }

  /** The ledger in this machine runs exactly as on its own. */
  lemma {:induction false} LedgerRuns(steps: seq<Step>)
    ensures Run(steps).sys == L.Run(LedgerSteps(steps))
  {
    if steps != [] {
      var before := LedgerSteps(steps[..|steps| - 1]);
      LedgerRuns(steps[..|steps| - 1]);
      if steps[|steps| - 1].LedgerStep? {
        assert LedgerSteps(steps)[..|before|] == before;
      } else {
        assert LedgerSteps(steps) == before;
      }
    }
  }

  lemma CommittedGrows(s: L.System, st: L.Step)
    ensures s.committed <= L.Next(s, st).committed
    ensures Commits(s, st) ==> s.open[st.id].op in L.Next(s, st).committed
  {
    if Commits(s, st) {
      assert L.Next(s, st).committed[|s.committed|] == s.open[st.id].op;
    }
  }

  lemma {:induction false} AlwaysAgrees(steps: seq<Step>)
    requires AllLegal(Run(steps).sys.committed)
    ensures Agrees(Run(steps))
  {
    if steps == [] {
      assert forall a :: U.CreditsByPeriod(U.EMPTY, a) == map[] && OwedRows(START, a) == map[];
      assert forall p :: U.TokensByPeriod(U.EMPTY, p) == map[] && UncountedRows(START, p) == map[];
    } else {
      var init, last := steps[..|steps| - 1], steps[|steps| - 1];
      var w := Run(init);
      LedgerRuns(init);
      L.RunKeepsSnapshots(LedgerSteps(init));
      if last.LedgerStep? {
        CommittedGrows(w.sys, last.step);
      }
      assert AllLegal(w.sys.committed);
      AlwaysAgrees(init);
      StepAgrees(w, last);
    }
  }

  /**
   Reconciliation. In every interleaving, account by account: what the rows labelled "usage" take
   from the log is what the summaries of all periods bill, plus what is settled and not yet
   aggregated, less what administrators booked under that same label. And provider by provider: the
   tokens in the summaries are those counted towards the quota, plus those not yet counted.
   */
  lemma Reconciles(steps: seq<Step>, a: AccountId, p: ProviderId)
    requires AllLegal(Run(steps).sys.committed)
    ensures var w := Run(steps);
            && -UsageDeltas(w.sys.db.log, a) == Billed(w, a) + Owed(w, a) - AdjustedAsUsage(w.sys.committed, a)
            && Used(w, p) == CountedFor(w, p) + Uncounted(w, p)
  {
    AlwaysAgrees(steps);
    assert AccountAgrees(Run(steps), a) && ProviderAgrees(Run(steps), p);
  }

  /**
   When the books agree: at any moment, an account's summaries bill what the rows labelled "usage" take
   exactly if what it still owes is what its own adjustments under that label come to; and a
   provider's quota counter equals its summaries exactly if the tokens not yet counted come to nothing.
   */
  lemma ReconciledIff(steps: seq<Step>, a: AccountId, p: ProviderId)
    requires AllLegal(Run(steps).sys.committed)
    ensures var w := Run(steps);
            && (Billed(w, a) == -UsageDeltas(w.sys.db.log, a) <==> Owed(w, a) == AdjustedAsUsage(w.sys.committed, a))
            && (Used(w, p) == CountedFor(w, p) <==> Uncounted(w, p) == 0)
  {
    Reconciles(steps, a, p);
  }

  /**
   So once an account's settled requests have all been aggregated and a provider's all counted, the
   summaries agree with the label exactly if those adjustments come to nothing, and the counter agrees.
   */
  lemma SettledBooksAgreeIff(steps: seq<Step>, a: AccountId, p: ProviderId)
    requires AllLegal(Run(steps).sys.committed)
    requires OwedRows(Run(steps), a) == map[] && UncountedRows(Run(steps), p) == map[]
    ensures var w := Run(steps);
            && (Billed(w, a) == -UsageDeltas(w.sys.db.log, a) <==> AdjustedAsUsage(w.sys.committed, a) == 0)
            && Used(w, p) == CountedFor(w, p)
  {
    ReconciledIff(steps, a, p);
  }

  /**
   Every credit is accounted for: what an account has, held or not, is what administrators gave it
   less what the summaries bill and what is still owed, however the adjustments are labelled.
   */
  lemma EveryCreditAccounted(steps: seq<Step>, a: AccountId)
    requires AllLegal(Run(steps).sys.committed) && Guarded(Run(steps).sys.committed)
    ensures var w := Run(steps);
            Total(w.sys.db, a) == Adjusted(w.sys.committed, a) - Billed(w, a) - Owed(w, a)
  {
    var w := Run(steps);
    AlwaysAgrees(steps);
    assert AccountAgrees(w, a);
    LedgerRuns(steps);
    ConservedAlways(LedgerSteps(steps));
    if a in w.sys.db.credits {
      assert AccountConserved(w.sys.db, a);
    }
  }

  // ----- runs from a given world -----

  function RunFrom(w: World, steps: seq<Step>): World {
    if steps == [] then w else Next(RunFrom(w, steps[..|steps| - 1]), steps[|steps| - 1])
  }

  lemma RunFromNext(w: World, steps: seq<Step>, step: Step)
    ensures RunFrom(w, steps + [step]) == Next(RunFrom(w, steps), step)
  {
    assert (steps + [step])[..|steps|] == steps;
  }

  lemma {:induction false} RunFromAppend(w: World, steps: seq<Step>, more: seq<Step>)
    ensures RunFrom(w, steps + more) == RunFrom(RunFrom(w, steps), more)
    decreases |more|
  {
    if more == [] {
      assert steps + more == steps;
    } else {
      var init := more[..|more| - 1];
      assert steps + more == (steps + init) + [more[|more| - 1]];
      RunFromAppend(w, steps, init);
      RunFromNext(w, steps + init, more[|more| - 1]);
    }
  }

  /** A run continued is one run. */
  lemma {:induction false} RunContinues(steps: seq<Step>, more: seq<Step>)
    ensures Run(steps + more) == RunFrom(Run(steps), more)
    decreases |more|
  {
    if more == [] {
      assert steps + more == steps;
    } else {
      var init := more[..|more| - 1];
      assert (steps + more)[..|steps + more| - 1] == steps + init;
      RunContinues(steps, init);
    }
  }

  /** An adjustment labelled "usage" does pull the log and the summaries apart, whoever makes it. */
  lemma LabelledAdjustmentMisleads(a: AccountId, operator: Option<string>)
    ensures var grant := L.Adjust(a, 5, Some("usage"), operator);
            var steps := [LedgerStep(L.Begin(0, L.Init(a))), LedgerStep(L.Commit(0)),
                          LedgerStep(L.Begin(0, grant)), LedgerStep(L.Commit(0))];
            && AllLegal(Run(steps).sys.committed)
            && Run(steps).owed == map[] && Run(steps).uncounted == map[]
            && Billed(Run(steps), a) != -UsageDeltas(Run(steps).sys.db.log, a)
  {
    var init, grant := L.Init(a), L.Adjust(a, 5, Some("usage"), operator);
    var ready := L.Database(map[a := L.CreditRow(0, 0, 0)], map[], []);
    var row := L.TxRow(a, 5, 5, Some("usage"), operator);
    var granted := L.Database(map[a := L.CreditRow(5, 0, 1)], map[], [row]);
    assert L.Atomic(init, L.EMPTY).db == ready && L.Atomic(grant, ready).db == granted;
    var first := [LedgerStep(L.Begin(0, init)), LedgerStep(L.Commit(0))];
    var second := [LedgerStep(L.Begin(0, grant)), LedgerStep(L.Commit(0))];
    Alone(START, 0, init);
    var w1 := RunFrom(START, first);
    assert w1 == START.(sys := L.System(ready, map[], [] + [init]));
    Alone(w1, 0, grant);
    var w2 := RunFrom(w1, second);
    assert w2 == START.(sys := L.System(granted, map[], [init] + [grant]));
    RunFromAppend(START, first, second);
    RunContinues([], first + second);
    assert first + second == [LedgerStep(L.Begin(0, init)), LedgerStep(L.Commit(0)),
                              LedgerStep(L.Begin(0, grant)), LedgerStep(L.Commit(0))];
    assert [] + (first + second) == first + second;
    UsageDeltasAppend([], row, a);
    assert [] + [row] == [row];
    assert U.CreditsByPeriod(U.EMPTY, a) == map[];
  }

  lemma BeginThenCommit(w: World, id: nat, op: L.Op)
    requires id !in w.sys.open
    ensures Next(Next(w, LedgerStep(L.Begin(id, op))), LedgerStep(L.Commit(id))) == RunAlone(w, op)
  {
    assert w.sys.open[id := L.Txn(op, w.sys.db)] - {id} == w.sys.open;
  }

  /** An operation that begins and commits with nothing in between. */
  lemma Alone(w: World, id: nat, op: L.Op)
    requires id !in w.sys.open
    ensures RunFrom(w, [LedgerStep(L.Begin(id, op)), LedgerStep(L.Commit(id))]) == RunAlone(w, op)
  {
    var begin, commit := LedgerStep(L.Begin(id, op)), LedgerStep(L.Commit(id));
    RunFromNext(w, [], begin);
    RunFromNext(w, [begin], commit);
    assert [] + [begin] == [begin] && [begin] + [commit] == [begin, commit];
    BeginThenCommit(w, id, op);
  }

  function RunAlone(w: World, op: L.Op): World {
    var r := L.Atomic(op, w.sys.db);
    if r.outcome.Done? then Noted(w.(sys := L.System(r.db, w.sys.open, w.sys.committed + [op])), op)
    else w.(sys := L.System(r.db, w.sys.open, w.sys.committed))
  }
}
