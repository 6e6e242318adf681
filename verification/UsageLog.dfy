/**
 The usage log and the two tables that are kept summed up beside it, per account and month and per
 provider and month.
 */
module UsageLog {
  import opened Common

  datatype UsageEntry = UsageEntry(id: string, account: string, provider: Option<string>,
                                   promptTokens: Option<int>, completionTokens: Option<int>,
                                   totalTokens: Option<int>, credits: int)

  datatype Summary = Summary(promptTokens: int, completionTokens: int, credits: int, calls: int)

  const ZERO := Summary(0, 0, 0, 0)

  /** Account or provider, and period. */
  type Key = (string, string)

  datatype Tables = Tables(log: seq<UsageEntry>, accounts: map<Key, Summary>, providers: map<Key, int>)

  const EMPTY := Tables([], map[], map[])

  predicate HasId(log: seq<UsageEntry>, id: string) {
    exists i :: 0 <= i < |log| && log[i].id == id
  }

  function Prompt(e: UsageEntry): int {
    e.promptTokens.GetOr(0)
  }

  function Completion(e: UsageEntry): int {
    e.completionTokens.GetOr(0)
  }

  function TotalTokens(e: UsageEntry): int {
    e.totalTokens.GetOr(Prompt(e) + Completion(e))
  }

  function Add(s: Summary, e: UsageEntry): Summary {
    Summary(s.promptTokens + Prompt(e), s.completionTokens + Completion(e), s.credits + e.credits, s.calls + 1)
  }

  /** The two UPSERTs. */
  function Aggregated(t: Tables, e: UsageEntry, period: string): Tables {
    var key := (e.account, period);
    var accounts := t.accounts[key := Add(if key in t.accounts then t.accounts[key] else ZERO, e)];
    var providers :=
      match e.provider
      case None => t.providers
      case Some(p) =>
        t.providers[(p, period) := (if (p, period) in t.providers then t.providers[(p, period)] else 0) + TotalTokens(e)];
    Tables(t.log, accounts, providers)
  }

  /** One transaction: the fact and both sums, or nothing if the id is taken. */
  function Insert(t: Tables, e: UsageEntry, period: string): (Tables, bool) {
    if HasId(t.log, e.id) then (t, false)
    else (Aggregated(t.(log := t.log + [e]), e, period), true)
  }

  /** Every id of `entries` is new to `log` and to the rest of `entries`. */
  predicate AllNew(log: seq<UsageEntry>, entries: seq<UsageEntry>)
    decreases |entries|
  {
    entries == [] || (!HasId(log, entries[0].id) && AllNew(log + [entries[0]], entries[1..]))
  }

  /** The batch path writes facts only, all or none. */
  function InsertBatch(t: Tables, entries: seq<UsageEntry>): (Tables, bool) {
    if AllNew(t.log, entries) then (t.(log := t.log + entries), true) else (t, false)
  }

  function AccountSummary(t: Tables, account: string, period: string): Summary {
    if (account, period) in t.accounts then t.accounts[(account, period)] else ZERO
  }

  function ProviderSummary(t: Tables, provider: string, period: string): int {
    if (provider, period) in t.providers then t.providers[(provider, period)] else 0
  }

  // ----- runs -----

  datatype Op = Single(entry: UsageEntry, period: string) | Batch(entries: seq<UsageEntry>)

  /** A fact that was aggregated, and under which period. */
  datatype Fact = Fact(entry: UsageEntry, period: string)

  function Run(ops: seq<Op>): Tables {
    if ops == [] then EMPTY
    else
      match ops[|ops| - 1]
      case Single(e, period) => Insert(Run(ops[..|ops| - 1]), e, period).0
      case Batch(entries) => InsertBatch(Run(ops[..|ops| - 1]), entries).0
  }

  /** The facts that went in one by one, in order. */
  function Facts(ops: seq<Op>): seq<Fact> {
    if ops == [] then []
    else
      var init := ops[..|ops| - 1];
      match ops[|ops| - 1]
      case Single(e, period) => Facts(init) + (if HasId(Run(init).log, e.id) then [] else [Fact(e, period)])
      case Batch(_) => Facts(init)
  }

  datatype Column = PromptTokens | CompletionTokens | Credits | Calls

  function Cell(column: Column, e: UsageEntry): int {
    match column
    case PromptTokens => e.promptTokens.GetOr(0)
    case CompletionTokens => e.completionTokens.GetOr(0)
    case Credits => e.credits
    case Calls => 1
  }

  /** All tokens of an entry: the total it states, or prompt and completion together. */
  function AllTokens(e: UsageEntry): int {
    match e.totalTokens
    case Some(total) => total
    case None => Cell(PromptTokens, e) + Cell(CompletionTokens, e)
  }

  /** The sum of one column over the facts of one account and period. */
  function AccountSum(facts: seq<Fact>, column: Column, account: string, period: string): int {
    if facts == [] then 0
    else
      var f := facts[|facts| - 1];
      AccountSum(facts[..|facts| - 1], column, account, period)
      + (if f.entry.account == account && f.period == period then Cell(column, f.entry) else 0)
  }

  /** The sum of all tokens over the facts of one provider and period. */
  function ProviderSum(facts: seq<Fact>, provider: string, period: string): int {
    if facts == [] then 0
    else
      var f := facts[|facts| - 1];
      ProviderSum(facts[..|facts| - 1], provider, period)
      + (if f.entry.provider == Some(provider) && f.period == period then AllTokens(f.entry) else 0)
  }

  /** What an account's summary should be: the column sums and the number of its facts. */
  function SummaryOf(facts: seq<Fact>, account: string, period: string): Summary {
    Summary(AccountSum(facts, PromptTokens, account, period), AccountSum(facts, CompletionTokens, account, period),
            AccountSum(facts, Credits, account, period), AccountSum(facts, Calls, account, period))
  }

  ghost predicate Agrees(t: Tables, facts: seq<Fact>) {
    && (forall a, p :: AccountSummary(t, a, p) == SummaryOf(facts, a, p))
    && (forall v, p :: ProviderSummary(t, v, p) == ProviderSum(facts, v, p))
  }

  lemma InsertAgrees(t: Tables, facts: seq<Fact>, e: UsageEntry, period: string)
    requires Agrees(t, facts) && !HasId(t.log, e.id)
    ensures Agrees(Insert(t, e, period).0, facts + [Fact(e, period)])
  {
    var more, t' := facts + [Fact(e, period)], Insert(t, e, period).0;
    assert more[..|facts|] == facts;
    forall a, p
      ensures AccountSummary(t', a, p) == SummaryOf(more, a, p)
    {
      assert AccountSummary(t, a, p) == SummaryOf(facts, a, p);
    }
    forall v, p
      ensures ProviderSummary(t', v, p) == ProviderSum(more, v, p)
    {
      assert ProviderSummary(t, v, p) == ProviderSum(facts, v, p);
    }
  }

  /**
   Pre-aggregation agrees with the facts: after any sequence of single and batch writes, every
   summary is the sum over exactly the facts that were written singly.
   */
  lemma {:induction false} SummariesAgree(ops: seq<Op>)
    ensures Agrees(Run(ops), Facts(ops))
  {
    if ops == [] {
    } else {
      var init := ops[..|ops| - 1];
      SummariesAgree(init);
      match ops[|ops| - 1] {
        case Batch(_) =>
        case Single(e, period) =>
          if HasId(Run(init).log, e.id) {
            assert Facts(ops) == Facts(init);
          } else {
            InsertAgrees(Run(init), Facts(init), e, period);
          }
      }
    }
  }

  /** Every id of the batch is new, to the log and among themselves. */
  ghost predicate IdsAreNew(log: seq<UsageEntry>, entries: seq<UsageEntry>) {
    && (forall i :: 0 <= i < |entries| ==> !HasId(log, entries[i].id))
    && (forall i, j :: 0 <= i < j < |entries| ==> entries[i].id != entries[j].id)
  }

  lemma HasIdAppend(log: seq<UsageEntry>, e: UsageEntry, id: string)
    ensures HasId(log + [e], id) <==> HasId(log, id) || e.id == id
  {
    if HasId(log, id) {
      var i :| 0 <= i < |log| && log[i].id == id;
      assert (log + [e])[i].id == id;
    }
    assert (log + [e])[|log|] == e;
  }

  lemma IdsAreNewRest(log: seq<UsageEntry>, e: UsageEntry, rest: seq<UsageEntry>)
    requires IdsAreNew(log, [e] + rest)
    ensures !HasId(log, e.id) && IdsAreNew(log + [e], rest)
  {
    var all := [e] + rest;
    assert all[0] == e;
    forall i | 0 <= i < |rest|
      ensures !HasId(log + [e], rest[i].id)
    {
      assert all[i + 1] == rest[i] && all[0].id != all[i + 1].id && !HasId(log, all[i + 1].id);
      HasIdAppend(log, e, rest[i].id);
    }
    forall i, j | 0 <= i < j < |rest|
      ensures rest[i].id != rest[j].id
    {
      assert all[i + 1] == rest[i] && all[j + 1] == rest[j];
    }
  }

  lemma IdsAreNewJoin(log: seq<UsageEntry>, e: UsageEntry, rest: seq<UsageEntry>)
    requires !HasId(log, e.id) && IdsAreNew(log + [e], rest)
    ensures IdsAreNew(log, [e] + rest)
  {
    var all := [e] + rest;
    forall i | 0 <= i < |rest|
      ensures all[i + 1] == rest[i] && !HasId(log, rest[i].id) && rest[i].id != e.id
    {
      HasIdAppend(log, e, rest[i].id);
    }
    forall i | 0 <= i < |all|
      ensures !HasId(log, all[i].id)
    {
      assert i > 0 ==> all[i] == rest[i - 1];
    }
    forall i, j | 0 <= i < j < |all|
      ensures all[i].id != all[j].id
    {
      assert all[j] == rest[j - 1] && (i > 0 ==> all[i] == rest[i - 1]);
    }
  }

  lemma {:induction false} AllNewIff(log: seq<UsageEntry>, entries: seq<UsageEntry>)
    ensures AllNew(log, entries) <==> IdsAreNew(log, entries)
    decreases |entries|
  {
    if entries != [] {
      var e, rest := entries[0], entries[1..];
      assert entries == [e] + rest;
      AllNewIff(log + [e], rest);
      if IdsAreNew(log, entries) {
        IdsAreNewRest(log, e, rest);
      }
      if !HasId(log, e.id) && IdsAreNew(log + [e], rest) {
        IdsAreNewJoin(log, e, rest);
      }
    }
  }

  /** A batch goes into the log whole and in order, exactly if all its ids are new; and never into the summaries. */
  lemma BatchIsAllOrNone(t: Tables, entries: seq<UsageEntry>)
    ensures var (t', ok) := InsertBatch(t, entries);
            && (ok <==> IdsAreNew(t.log, entries))
            && t' == t.(log := if ok then t.log + entries else t.log)
  {
    AllNewIff(t.log, entries);
  }

  /** A single entry goes in exactly if its id is new, and otherwise changes neither log nor summaries. */
  lemma SingleIsAllOrNone(t: Tables, e: UsageEntry, period: string)
    ensures var (t', ok) := Insert(t, e, period);
            && (ok <==> forall i :: 0 <= i < |t.log| ==> t.log[i].id != e.id)
            && t'.log == (if ok then t.log + [e] else t.log) && (!ok ==> t' == t)
  {
  }

  /** How many of the aggregated facts bear the id `id`. */
  function FactsWith(facts: seq<Fact>, id: string): nat {
    if facts == [] then 0
    else FactsWith(facts[..|facts| - 1], id) + (if facts[|facts| - 1].entry.id == id then 1 else 0)
  }

  function RowsWith(log: seq<UsageEntry>, id: string): nat {
    if log == [] then 0
    else RowsWith(log[..|log| - 1], id) + (if log[|log| - 1].id == id then 1 else 0)
  }

  lemma {:induction false} RowsWithAppend(log: seq<UsageEntry>, more: seq<UsageEntry>, id: string)
    ensures RowsWith(log + more, id) == RowsWith(log, id) + RowsWith(more, id)
    decreases |more|
  {
    if more == [] {
      assert log + more == log;
    } else {
      var init := more[..|more| - 1];
      assert (log + more)[..|log + more| - 1] == log + init;
      RowsWithAppend(log, init, id);
    }
  }

  lemma {:induction false} RowsWithIff(log: seq<UsageEntry>, id: string)
    ensures RowsWith(log, id) > 0 <==> HasId(log, id)
  {
    if log != [] {
      var init, last := log[..|log| - 1], log[|log| - 1];
      RowsWithIff(init, id);
      assert HasId(init, id) ==> HasId(log, id) by {
        assert forall i :: 0 <= i < |init| ==> init[i] == log[i];
      }
      if HasId(log, id) && last.id != id {
        var i :| 0 <= i < |log| && log[i].id == id;
        assert init[i].id == id;
      }
    }
  }

  lemma {:induction false} NewRowsAreUnique(log: seq<UsageEntry>, entries: seq<UsageEntry>, id: string)
    requires AllNew(log, entries) && RowsWith(log, id) <= 1
    ensures RowsWith(log + entries, id) <= 1
    decreases |entries|
  {
    if entries == [] {
      assert log + entries == log;
    } else {
      var first := entries[0];
      RowsWithIff(log, first.id);
      assert (log + [first])[..|log|] == log;
      NewRowsAreUnique(log + [first], entries[1..], id);
      assert log + [first] + entries[1..] == log + entries;
    }
  }

  lemma RowsWithOne(log: seq<UsageEntry>, e: UsageEntry, id: string)
    ensures RowsWith(log + [e], id) == RowsWith(log, id) + (if e.id == id then 1 else 0)
  {
    assert (log + [e])[..|log|] == log;
  }

  lemma FactsWithOne(facts: seq<Fact>, f: Fact, id: string)
    ensures FactsWith(facts + [f], id) == FactsWith(facts, id) + (if f.entry.id == id then 1 else 0)
  {
    assert (facts + [f])[..|facts|] == facts;
  }

  /** An entry written singly counts once among the rows and once among the facts, if its id was new. */
  lemma SingleOnce(log: seq<UsageEntry>, facts: seq<Fact>, e: UsageEntry, period: string, id: string)
    requires !HasId(log, e.id) && FactsWith(facts, id) <= RowsWith(log, id) <= 1
    ensures FactsWith(facts + [Fact(e, period)], id) <= RowsWith(log + [e], id) <= 1
  {
    RowsWithIff(log, e.id);
    RowsWithOne(log, e, id);
    FactsWithOne(facts, Fact(e, period), id);
  }

  lemma BatchOnce(log: seq<UsageEntry>, entries: seq<UsageEntry>, id: string)
    requires AllNew(log, entries) && RowsWith(log, id) <= 1
    ensures RowsWith(log, id) <= RowsWith(log + entries, id) <= 1
  {
    NewRowsAreUnique(log, entries, id);
    RowsWithAppend(log, entries, id);
  }

  /** No entry is logged twice, and none is aggregated twice or without being logged. */
  lemma {:induction false} AggregatedOnce(ops: seq<Op>, id: string)
    ensures FactsWith(Facts(ops), id) <= RowsWith(Run(ops).log, id) <= 1
  {
    if ops != [] {
      var init := ops[..|ops| - 1];
      AggregatedOnce(init, id);
      match ops[|ops| - 1] {
        case Batch(entries) =>
          if AllNew(Run(init).log, entries) {
            BatchOnce(Run(init).log, entries, id);
          }
        case Single(e, period) =>
          if HasId(Run(init).log, e.id) {
            assert Facts(ops) == Facts(init);
          } else {
            SingleOnce(Run(init).log, Facts(init), e, period, id);
          }
      }
    }
  }

  // ----- totals over all periods -----

  /** An account's credits in every period that has a summary row. */
  ghost function CreditsByPeriod(t: Tables, account: string): map<Key, int> {
    map k | k in t.accounts && k.0 == account :: t.accounts[k].credits
  }

  /** A provider's tokens in every period that has a summary row. */
  ghost function TokensByPeriod(t: Tables, provider: string): map<Key, int> {
    map k | k in t.providers && k.0 == provider :: t.providers[k]
  }

  /** What account `account` was billed, over all periods. */
  ghost function CreditsBilled(t: Tables, account: string): int {
    SumOver(CreditsByPeriod(t, account))
  }

  /** What provider `provider` was used, over all periods. */
  ghost function TokensBilled(t: Tables, provider: string): int {
    SumOver(TokensByPeriod(t, provider))
  }

  /** One aggregated entry adds its credits to its account's total over all periods, and to no other. */
  lemma InsertMovesCredits(t: Tables, e: UsageEntry, period: string, account: string)
    requires !HasId(t.log, e.id)
    ensures CreditsBilled(Insert(t, e, period).0, account)
            == CreditsBilled(t, account) + (if e.account == account then e.credits else 0)
  {
    var before, after := CreditsByPeriod(t, account), CreditsByPeriod(Insert(t, e, period).0, account);
    if e.account == account {
      var k := (account, period);
      assert after == before[k := Insert(t, e, period).0.accounts[k].credits];
      SumOverUpdate(before, k, Insert(t, e, period).0.accounts[k].credits);
    } else {
      assert after == before;
    }
  }

  /** And its tokens to its provider's. */
  lemma InsertMovesTokens(t: Tables, e: UsageEntry, period: string, provider: string)
    requires !HasId(t.log, e.id)
    ensures TokensBilled(Insert(t, e, period).0, provider)
            == TokensBilled(t, provider) + (if e.provider == Some(provider) then AllTokens(e) else 0)
  {
    var before, after := TokensByPeriod(t, provider), TokensByPeriod(Insert(t, e, period).0, provider);
    if e.provider == Some(provider) {
      var k := (provider, period);
      assert after == before[k := Insert(t, e, period).0.providers[k]];
      SumOverUpdate(before, k, Insert(t, e, period).0.providers[k]);
    } else {
      assert after == before;
    }
  }

  // ----- the repository -----

  class UsageLogRepo {
    var log: seq<UsageEntry>
    var accounts: map<Key, Summary>
    var providers: map<Key, int>

    function Contents(): Tables
      reads this
    {
      Tables(log, accounts, providers)
    }

    constructor ()
      ensures Contents() == EMPTY
    {
      log, accounts, providers := [], map[], map[];
    }

    method InsertAndAggregate(e: UsageEntry, period: string) returns (ok: bool)
      modifies this
      ensures (Contents(), ok) == Insert(old(Contents()), e, period)
    {
      if HasId(log, e.id) {
        return false;
      }
      log := log + [e];
      var p, c := e.promptTokens.GetOr(0), e.completionTokens.GetOr(0);
      var key := (e.account, period);
      if key in accounts {
        var row := accounts[key];
        accounts := accounts[key := Summary(row.promptTokens + p, row.completionTokens + c,
                                            row.credits + e.credits, row.calls + 1)];
      } else {
        accounts := accounts[key := Summary(p, c, e.credits, 1)];
      }
      if e.provider.Some? {
        var total := e.totalTokens.GetOr(p + c);
        var providerKey := (e.provider.value, period);
        if providerKey in providers {
          providers := providers[providerKey := providers[providerKey] + total];
        } else {
          providers := providers[providerKey := total];
        }
      }
      return true;
    }

    method BatchInsert(entries: seq<UsageEntry>) returns (ok: bool)
      modifies this
      ensures (Contents(), ok) == InsertBatch(old(Contents()), entries)
    {
      var written := log;
      for i := 0 to |entries|
        invariant written == log + entries[..i]
        invariant AllNew(log, entries) <==> AllNew(written, entries[i..])
      {
        if HasId(written, entries[i].id) {
          return false;
        }
        assert entries[i..][1..] == entries[i + 1..];
        written := written + [entries[i]];
      }
      assert entries[..|entries|] == entries;
      log := written;
      return true;
    }
  }
}
