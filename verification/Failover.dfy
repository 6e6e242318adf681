/**
 The walk over the ordered candidates: each is asked in turn until one answers, one fails with an
 error that is the caller's own, or none is left. A provider that fails otherwise is disabled.

 What upstream replies is an input: `attempts(k)` is the outcome of asking candidate `k`, should
 the walk reach it.
 */
module Failover {
  import Common
  import opened Fallback
  import opened Providers
  import opened Routing

  /** Token counts as the upstream reports them; they may be any numbers. */
  datatype ChatUsage = ChatUsage(promptTokens: int, completionTokens: int)

  datatype Reply = Success(usage: Common.Option<ChatUsage>, completionEstimate: int) | Failure(error: UpstreamError)

  /** The reply, and whether the write that disables the provider would get through. */
  datatype Attempt = Attempt(reply: Reply, written: bool)

  datatype Ending = Answered(at: nat) | Rejected(at: nat) | Exhausted(failed: bool)

  /** The attempt failed, and for a reason of the provider's. */
  ghost predicate FallsBack(attempt: Attempt) {
    attempt.reply.Failure? && ProviderFails(attempt.reply.error)
  }

  /** The code's walk from candidate `k` on; `failed` says whether an error has been noted so far. */
  function Walk(ordered: seq<RouteCandidate>, known: set<ProviderId>, attempts: nat -> Attempt, k: nat,
                failed: bool): (ending: Ending)
    requires k <= |ordered|
    ensures ending.Answered? ==> k <= ending.at < |ordered| && attempts(ending.at).reply.Success?
    ensures ending.Rejected? ==> k <= ending.at < |ordered|
    decreases |ordered| - k
  {
    if k == |ordered| then Exhausted(failed)
    else if ordered[k].providerId !in known then Walk(ordered, known, attempts, k + 1, failed)
    else
      match attempts(k).reply
      case Success(_, _) => Answered(k)
      case Failure(error) =>
        match Classify(error)
        case ShouldDisableAndFallback => Walk(ordered, known, attempts, k + 1, true)
        case NoFallback => Rejected(k)
  }

  /** How many candidates the walk has left behind when it ends. */
  function PassedOver(ordered: seq<RouteCandidate>, ending: Ending): nat {
    match ending
    case Answered(k) => k
    case Rejected(k) => k
    case Exhausted(_) => |ordered|
  }

  /** The provider rows once the walk has left the first `k` candidates behind. */
  function DisabledBy(ordered: seq<RouteCandidate>, known: set<ProviderId>, attempts: nat -> Attempt, rows: Table,
                      k: nat): Table
    requires k <= |ordered|
  {
    if k == 0 then rows
    else
      var before := DisabledBy(ordered, known, attempts, rows, k - 1);
      var id := ordered[k - 1].providerId;
      if id in known && attempts(k - 1).written then WithStatus(before, id, Disabled) else before
  }

  /** Where the walk stops, said without walking. */
  ghost predicate EndsAt(ordered: seq<RouteCandidate>, attempts: nat -> Attempt, ending: Ending) {
    && PassedOver(ordered, ending) <= |ordered|
    && (forall i :: 0 <= i < PassedOver(ordered, ending) ==> FallsBack(attempts(i)))
    && match ending
       case Answered(k) => k < |ordered| && attempts(k).reply.Success?
       case Rejected(k) => k < |ordered| && attempts(k).reply.Failure? && !FallsBack(attempts(k))
       case Exhausted(failed) => failed == (ordered != [])
  }

  lemma {:induction false} WalkEnds(ordered: seq<RouteCandidate>, known: set<ProviderId>, attempts: nat -> Attempt,
                                    k: nat)
    requires k <= |ordered|
    requires forall i :: 0 <= i < |ordered| ==> ordered[i].providerId in known
    requires forall i :: 0 <= i < k ==> FallsBack(attempts(i))
    ensures EndsAt(ordered, attempts, Walk(ordered, known, attempts, k, k > 0))
    decreases |ordered| - k
  {
    if k < |ordered| && attempts(k).reply.Failure? {
      ClassifyIff(attempts(k).reply.error);
      if FallsBack(attempts(k)) {
        WalkEnds(ordered, known, attempts, k + 1);
      }
    }
  }

  /** There is only one place where a walk can stop. */
  lemma EndIsUnique(ordered: seq<RouteCandidate>, attempts: nat -> Attempt, e: Ending, e': Ending)
    requires EndsAt(ordered, attempts, e) && EndsAt(ordered, attempts, e')
    ensures e == e'
  {
    var n, n' := PassedOver(ordered, e), PassedOver(ordered, e');
    assert n < n' ==> FallsBack(attempts(n));
    assert n' < n ==> FallsBack(attempts(n'));
  }

  /** Some candidate left behind among the first `k` had this provider, and its disabling was written. */
  ghost predicate TurnedOff(ordered: seq<RouteCandidate>, attempts: nat -> Attempt, k: nat, id: ProviderId)
    requires k <= |ordered|
  {
    exists i :: 0 <= i < k && ordered[i].providerId == id && attempts(i).written
  }

  lemma {:induction false} DisabledByIff(ordered: seq<RouteCandidate>, known: set<ProviderId>,
                                         attempts: nat -> Attempt, rows: Table, k: nat, id: ProviderId)
    requires k <= |ordered| && forall i :: 0 <= i < |ordered| ==> ordered[i].providerId in known
    ensures var after := DisabledBy(ordered, known, attempts, rows, k);
            && (id in after <==> id in rows)
            && (id in rows ==>
                  after[id] == if TurnedOff(ordered, attempts, k, id) then rows[id].(status := Disabled) else rows[id])
  {
    if k > 0 {
      DisabledByIff(ordered, known, attempts, rows, k - 1, id);
      assert TurnedOff(ordered, attempts, k, id)
        <==> TurnedOff(ordered, attempts, k - 1, id) || (ordered[k - 1].providerId == id && attempts(k - 1).written);
    }
  }

  function ProviderIds(candidates: seq<RouteCandidate>): set<ProviderId> {
    set c | c in candidates :: c.providerId
  }

  /**
   The failover trace. Candidates are tried strictly in the order selected, none skipped. The walk
   ends at the first that does not fall back, answering if and only if that one succeeded. Exactly the
   providers left behind are disabled, so far as the writes got through; no other row changes.
   */
  lemma FailoverTrace(candidates: seq<RouteCandidate>, draws: seq<nat>, attempts: nat -> Attempt, rows: Table,
                      ending: Ending)
    requires ValidSelectDraws(candidates, draws)
    ensures var ordered := Selected(candidates, draws);
            && (ending == Walk(ordered, ProviderIds(candidates), attempts, 0, false)
                <==> EndsAt(ordered, attempts, ending))
            && (PassedOver(ordered, ending) <= |ordered| ==>
                  var after := DisabledBy(ordered, ProviderIds(candidates), attempts, rows,
                                          PassedOver(ordered, ending));
                  && after.Keys == rows.Keys
                  && forall id :: id in rows ==>
                       after[id] == if TurnedOff(ordered, attempts, PassedOver(ordered, ending), id)
                                    then rows[id].(status := Disabled) else rows[id])
  {
    var ordered, known := Selected(candidates, draws), ProviderIds(candidates);
    AllKnown(candidates, draws);
    WalkEnds(ordered, known, attempts, 0);
    var walked := Walk(ordered, known, attempts, 0, false);
    if EndsAt(ordered, attempts, ending) {
      EndIsUnique(ordered, attempts, ending, walked);
    }
    if PassedOver(ordered, ending) <= |ordered| {
      forall id {
        DisabledByIff(ordered, known, attempts, rows, PassedOver(ordered, ending), id);
      }
    }
  }

  /** The branch for a candidate whose provider is not found never runs. */
  lemma AllKnown(candidates: seq<RouteCandidate>, draws: seq<nat>)
    requires ValidSelectDraws(candidates, draws)
    ensures |Selected(candidates, draws)| == |candidates|
    ensures forall i :: 0 <= i < |candidates|
              ==> Selected(candidates, draws)[i].providerId in ProviderIds(candidates)
  {
    var ordered := Selected(candidates, draws);
    SelectedIsByLevel(candidates, draws);
    forall x
      ensures |ordered| == |candidates| && (x in ordered <==> x in candidates)
    {
      SameMembers(ordered, candidates, x);
    }
    assert forall i :: 0 <= i < |ordered| ==> ordered[i] in candidates;
  }

  /** The loop of the handler. */
  method TryCandidates(repo: ProviderRepo, ordered: seq<RouteCandidate>, candidates: seq<RouteCandidate>,
                       attempts: nat -> Attempt)
    returns (ending: Ending)
    modifies repo
    ensures ending == Walk(ordered, ProviderIds(candidates), attempts, 0, false)
    ensures PassedOver(ordered, ending) <= |ordered|
    ensures repo.rows == DisabledBy(ordered, ProviderIds(candidates), attempts, old(repo.rows),
                                    PassedOver(ordered, ending))
  {
    var failed := false;
    ghost var known, start := ProviderIds(candidates), repo.rows;
    for k := 0 to |ordered|
      invariant Walk(ordered, known, attempts, 0, false) == Walk(ordered, known, attempts, k, failed)
      invariant repo.rows == DisabledBy(ordered, known, attempts, start, k)
    {
      var found := FindProvider(candidates, ordered[k].providerId);
      if !found {
        continue;
      }
      match attempts(k).reply {
        case Success(_, _) =>
          return Answered(k);
        case Failure(error) =>
          match Classify(error) {
            case ShouldDisableAndFallback =>
              if attempts(k).written {
                var _ := repo.SetStatus(ordered[k].providerId, Disabled);
              }
              failed := true;
            case NoFallback =>
              return Rejected(k);
          }
      }
    }
    return Exhausted(failed);
  }

  method FindProvider(candidates: seq<RouteCandidate>, id: ProviderId) returns (found: bool)
    ensures found <==> id in ProviderIds(candidates)
  {
    for i := 0 to |candidates|
      invariant forall j :: 0 <= j < i ==> candidates[j].providerId != id
    {
      if candidates[i].providerId == id {
        assert candidates[i] in candidates;
        return true;
      }
    }
    return false;
  }
}
