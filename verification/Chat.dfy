/**
 One chat request from end to end: hold credits, try the candidates, settle or release the hold,
 write the usage log, count the provider's quota.

 While the request runs, other transactions commit to the ledger. `Others` says which: those that
 commit between the snapshot and the commit of the hold, those that commit while the upstream is
 being asked, and those that commit between the snapshot and the commit of the settlement.
 `Ledger.Serializable` is why whole operations in commit order are the right unit.
 */
module Chat {
  import opened Common
  import opened Conservation
  import opened CreditsRepository
  import opened Failover
  import opened Ledger
  import P = Providers
  import opened Rates
  import opened Routing
  import U = UsageLog

  datatype LogicalModel = LogicalModel(inputRate: int, outputRate: int)

  datatype Request = Request(account: AccountId, model: string, stream: bool, promptEstimate: int,
                             holdId: HoldId, entryId: string, period: string)

  datatype Others = Others(placing: seq<Op>, serving: seq<Op>, resolving: seq<Op>)

  /** Which database calls fail. */
  datatype Faults = Faults(lookup: bool, place: bool, resolve: bool, insert: bool, addUsage: bool, markAlert: bool)

  /** What the request finds: the catalogue, the random draws, the upstream, the other requests. */
  datatype Surroundings = Surroundings(models: map<string, LogicalModel>, mappings: seq<RouteCandidate>,
                                       draws: seq<nat>, attempts: nat -> Attempt, others: Others, faults: Faults)

  datatype State = State(ledger: Database, usage: U.Tables, providers: P.Table, alerts: seq<P.ProviderId>)

  datatype ApiError = BadRequest | NoProvider | InsufficientCredits | Upstream | Internal

  datatype Response = Answer | Error(error: ApiError)

  // ----- what is charged -----

  /** Held in advance: the estimated prompt, at least one credit. */
  function Estimate(req: Request, model: LogicalModel): (r: int)
    ensures 1 <= r <= I64_MAX
  {
    CreditsFit(UsageTokens(req.promptEstimate, 0), model.inputRate, model.outputRate);
    Max(ComputeCredits(UsageTokens(req.promptEstimate, 0), model.inputRate, model.outputRate), 1)
  }

  /** What the upstream reports counts; if it reports nothing, the estimates do. */
  function TokensOf(req: Request, reply: Reply): UsageTokens
    requires reply.Success?
  {
    match reply.usage
    case Some(u) => UsageTokens(u.promptTokens, u.completionTokens)
    case None => UsageTokens(req.promptEstimate, reply.completionEstimate)
  }

  function Actual(tokens: UsageTokens, model: LogicalModel): (r: int)
    ensures 0 <= r <= I64_MAX
  {
    CreditsFit(tokens, model.inputRate, model.outputRate);
    Max(ComputeCredits(tokens, model.inputRate, model.outputRate), 0)
  }

  function TokenTotal(tokens: UsageTokens): int {
    WrapI64(tokens.promptTokens + tokens.completionTokens)
  }

  // ----- the request as a function of what it finds -----

  /** The mappings whose provider is active. */
  function Candidates(mappings: seq<RouteCandidate>, providers: P.Table): seq<RouteCandidate> {
    if mappings == [] then []
    else
      var last := mappings[|mappings| - 1];
      Candidates(mappings[..|mappings| - 1], providers)
      + (if last.providerId in providers && providers[last.providerId].status == P.Active then [last] else [])
  }

  /** Draws are in range for the candidates the request will find. */
  predicate DrawsFit(env: Surroundings, s: State) {
    ValidSelectDraws(Candidates(env.mappings, s.providers), env.draws)
  }

  /** The hold's transaction: its snapshot is the ledger at the start. */
  function Place(req: Request, model: LogicalModel, env: Surroundings, ledger: Database): Result {
    var now := Replay(env.others.placing, ledger);
    if env.faults.place then Result(now, Failed)
    else RunTx(PlaceHold(req.account, Estimate(req, model), req.holdId), ledger, now)
  }

  /** The ledger when the settling or releasing transaction begins, and when it commits. */
  function Begun(env: Surroundings, held: Database): Database {
    Replay(env.others.serving, held)
  }

  function Now(env: Surroundings, held: Database): Database {
    Replay(env.others.resolving, Begun(env, held))
  }

  function Resolve(op: Op, env: Surroundings, held: Database): Result {
    if env.faults.resolve then Result(Now(env, held), Failed) else RunTx(op, Begun(env, held), Now(env, held))
  }

  function Entry(req: Request, provider: P.ProviderId, tokens: UsageTokens, cost: int): U.UsageEntry {
    U.UsageEntry(req.entryId, req.account, Some(provider), Some(tokens.promptTokens), Some(tokens.completionTokens),
                 Some(TokenTotal(tokens)), cost)
  }

  /** The quota counter, and the alert if it is due. A failing statement here is ignored. */
  function CountQuota(s: State, id: P.ProviderId, tokens: int, faults: Faults): State {
    if faults.addUsage || id !in s.providers then s
    else
      var (row, alert) := P.Use(s.providers[id], tokens, !faults.markAlert);
      s.(providers := s.providers[id := row], alerts := if alert then s.alerts + [id] else s.alerts)
  }

  /** The settled request is written down. */
  function Record(req: Request, provider: P.ProviderId, tokens: UsageTokens, cost: int, env: Surroundings, s: State)
    : (State, Response)
  {
    if env.faults.insert then (s, Error(Internal))
    else
      var (usage, ok) := U.Insert(s.usage, Entry(req, provider, tokens, cost), req.period);
      if !ok then (s, Error(Internal))
      else (CountQuota(s.(usage := usage), provider, TokenTotal(tokens), env.faults), Answer)
  }

  /** How the walk over the candidates ends. */
  function WalkOf(candidates: seq<RouteCandidate>, env: Surroundings): (ending: Ending)
    requires ValidSelectDraws(candidates, env.draws)
    ensures PassedOver(Selected(candidates, env.draws), ending) <= |Selected(candidates, env.draws)|
    ensures ending.Answered? ==> ending.at < |Selected(candidates, env.draws)| && env.attempts(ending.at).reply.Success?
  {
    Walk(Selected(candidates, env.draws), ProviderIds(candidates), env.attempts, 0, false)
  }

  /** What becomes of the hold: settled at its price if some candidate answered, released if none did. */
  function Resolution(req: Request, model: LogicalModel, candidates: seq<RouteCandidate>, env: Surroundings): (op: Op)
    requires ValidSelectDraws(candidates, env.draws)
    ensures Legal(op)
  {
    match WalkOf(candidates, env)
    case Answered(k) => SettleHold(req.holdId, Actual(TokensOf(req, env.attempts(k).reply), model))
    case _ => ReleaseHold(req.holdId)
  }

  /** The request once the candidates have been tried. */
  function Finish(req: Request, model: LogicalModel, ordered: seq<RouteCandidate>, ending: Ending, env: Surroundings,
                  s: State): (State, Response)
    requires ending.Answered? ==> ending.at < |ordered| && env.attempts(ending.at).reply.Success?
  {
    match ending
    case Answered(k) =>
      var tokens := TokensOf(req, env.attempts(k).reply);
      var t := Resolve(SettleHold(req.holdId, Actual(tokens, model)), env, s.ledger);
      var s' := s.(ledger := t.db);
      if !t.outcome.Done? then (s', Error(Internal))
      else Record(req, ordered[k].providerId, tokens, Actual(tokens, model), env, s')
    case Rejected(_) => (s.(ledger := Resolve(ReleaseHold(req.holdId), env, s.ledger).db), Error(Upstream))
    case Exhausted(failed) =>
      (s.(ledger := Resolve(ReleaseHold(req.holdId), env, s.ledger).db), Error(if failed then Upstream else NoProvider))
  }

  /** The request once its hold is placed. */
  function ServeHeld(req: Request, model: LogicalModel, candidates: seq<RouteCandidate>, env: Surroundings, s: State)
    : (State, Response)
    requires ValidSelectDraws(candidates, env.draws)
  {
    var ordered := Selected(candidates, env.draws);
    var ending := WalkOf(candidates, env);
    Finish(req, model, ordered, ending, env,
           s.(providers := DisabledBy(ordered, ProviderIds(candidates), env.attempts, s.providers,
                                      PassedOver(ordered, ending))))
  }

  function Serve(req: Request, env: Surroundings, s: State): (State, Response)
    requires DrawsFit(env, s)
  {
    var candidates := Candidates(env.mappings, s.providers);
    if req.stream then (s, Error(BadRequest))
    else if env.faults.lookup then (s, Error(Internal))
    else if req.model !in env.models then (s, Error(BadRequest))
    else if candidates == [] then (s, Error(NoProvider))
    else
      var t := Place(req, env.models[req.model], env, s.ledger);
      var s' := s.(ledger := t.db);
      match t.outcome
      case Done(_) => ServeHeld(req, env.models[req.model], candidates, env, s')
      case Failed => (s', Error(Internal))
      case _ => (s', Error(InsufficientCredits))
  }

  // ----- the handler -----

  class Gateway {
    const credits: CreditsRepo
    const usage: U.UsageLogRepo
    const providers: P.ProviderRepo
    var alerts: seq<P.ProviderId>

    constructor (credits: CreditsRepo, usage: U.UsageLogRepo, providers: P.ProviderRepo)
      ensures this.credits == credits && this.usage == usage && this.providers == providers && alerts == []
    {
      this.credits, this.usage, this.providers, alerts := credits, usage, providers, [];
    }

    function Contents(): State
      reads this, credits, usage, providers
    {
      State(credits.Contents(), usage.Contents(), providers.rows, alerts)
    }

    /** What other tasks commit to the ledger at this point. */
    method CommitOthers(ops: seq<Op>)
      modifies credits
      ensures credits.Contents() == Replay(ops, old(credits.Contents()))
    {
      ghost var start := credits.Contents();
      for i := 0 to |ops|
        invariant credits.Contents() == Replay(ops[..i], start)
      {
        assert ops[..i + 1][..i] == ops[..i];
        credits.Store(Atomic(ops[i], credits.Contents()).db);
      }
      assert ops[..|ops|] == ops;
    }

    method FilterActive(mappings: seq<RouteCandidate>) returns (candidates: seq<RouteCandidate>)
      ensures candidates == Candidates(mappings, providers.rows)
    {
      candidates := [];
      for i := 0 to |mappings|
        invariant candidates == Candidates(mappings[..i], providers.rows)
      {
        assert mappings[..i + 1][..i] == mappings[..i];
        var id := mappings[i].providerId;
        if id in providers.rows && providers.rows[id].status == P.Active {
          candidates := candidates + [mappings[i]];
        }
      }
      assert mappings[..|mappings|] == mappings;
    }

    method ReleaseQuietly(holdId: HoldId, env: Surroundings)
      modifies credits
      ensures credits.Contents() == Resolve(ReleaseHold(holdId), env, old(credits.Contents())).db
    {
      CommitOthers(env.others.serving);
      var snapshot := credits.Contents();
      CommitOthers(env.others.resolving);
      if !env.faults.resolve {
        var _ := credits.ReleaseHold(snapshot, holdId);
      }
    }

    method Settle(holdId: HoldId, cost: int, env: Surroundings) returns (settled: DbResult<int>)
      modifies credits
      ensures var t := Resolve(SettleHold(holdId, cost), env, old(credits.Contents()));
              credits.Contents() == t.db && settled == BalanceOf(t.outcome)
    {
      CommitOthers(env.others.serving);
      var snapshot := credits.Contents();
      CommitOthers(env.others.resolving);
      if env.faults.resolve {
        return Err;
      }
      settled := credits.SettleHold(snapshot, holdId, cost);
    }

    method CountUsage(id: P.ProviderId, tokens: int, faults: Faults)
      modifies this, providers
      ensures Contents() == CountQuota(old(Contents()), id, tokens, faults)
    {
      if faults.addUsage {
        return;
      }
      var row := providers.AddUsage(id, tokens);
      if row.Some? && !row.value.alertSent && P.OverThreshold(row.value) {
        if !faults.markAlert {
          providers.MarkAlertSent(id);
        }
        alerts := alerts + [id];
      }
    }

    method WriteDown(req: Request, provider: P.ProviderId, tokens: UsageTokens, cost: int, env: Surroundings)
      returns (r: Response)
      modifies this, usage, providers
      ensures (Contents(), r) == Record(req, provider, tokens, cost, env, old(Contents()))
    {
      if env.faults.insert {
        return Error(Internal);
      }
      var ok := usage.InsertAndAggregate(Entry(req, provider, tokens, cost), req.period);
      if !ok {
        return Error(Internal);
      }
      CountUsage(provider, TokenTotal(tokens), env.faults);
      return Answer;
    }

    method FinishRequest(req: Request, model: LogicalModel, ordered: seq<RouteCandidate>, ending: Ending,
                         env: Surroundings)
      returns (r: Response)
      requires ending.Answered? ==> ending.at < |ordered| && env.attempts(ending.at).reply.Success?
      modifies this, credits, usage, providers
      ensures (Contents(), r) == Finish(req, model, ordered, ending, env, old(Contents()))
      ensures !ending.Answered? ==> r == Error(if ending == Exhausted(false) then NoProvider else Upstream)
    {
      match ending {
        case Answered(k) =>
          var tokens := TokensOf(req, env.attempts(k).reply);
          var cost := Actual(tokens, model);
          var settled := Settle(req.holdId, cost, env);
          match settled {
            case Ok(Some(_)) =>
              r := WriteDown(req, ordered[k].providerId, tokens, cost, env);
            case _ =>
              r := Error(Internal);
          }
        case Rejected(_) =>
          ReleaseQuietly(req.holdId, env);
          r := Error(Upstream);
        case Exhausted(failed) =>
          ReleaseQuietly(req.holdId, env);
          r := Error(if failed then Upstream else NoProvider);
      }
    }

    method ServeHold(req: Request, model: LogicalModel, candidates: seq<RouteCandidate>, env: Surroundings)
      returns (r: Response)
      requires ValidSelectDraws(candidates, env.draws)
      modifies this, credits, usage, providers
      ensures (Contents(), r) == ServeHeld(req, model, candidates, env, old(Contents()))
    {
      var ordered := Select(candidates, env.draws);
      var ending := TryCandidates(providers, ordered, candidates, env.attempts);
      r := FinishRequest(req, model, ordered, ending, env);
    }

    method ChatCompletions(req: Request, env: Surroundings) returns (r: Response)
      requires DrawsFit(env, Contents())
      modifies this, credits, usage, providers
      ensures (Contents(), r) == Serve(req, env, old(Contents()))
    {
      if req.stream {
        return Error(BadRequest);
      }
      if env.faults.lookup {
        return Error(Internal);
      }
      if req.model !in env.models {
        return Error(BadRequest);
      }
      var model := env.models[req.model];
      if env.mappings == [] {
        return Error(NoProvider);
      }
      var candidates := FilterActive(env.mappings);
      if candidates == [] {
        return Error(NoProvider);
      }
      var snapshot := credits.Contents();
      CommitOthers(env.others.placing);
      if env.faults.place {
        return Error(Internal);
      }
      var hold := credits.PlaceHold(snapshot, req.account, Estimate(req, model), req.holdId);
      match hold {
        case Err =>
          return Error(Internal);
        case Ok(None) =>
          return Error(InsufficientCredits);
        case Ok(Some(_)) =>
          r := ServeHold(req, model, candidates, env);
      }
    }
  }
}
