/**
 Provider rows: the status that failover turns off, and the usage counter with its one-shot alert.
 */
module Providers {
  import opened Common

  type ProviderId = string

  datatype Status = Active | Disabled

  datatype Provider = Provider(status: Status, quotaUsed: int, quotaLimit: Option<int>, quotaThreshold: int,
                               alertSent: bool)

  type Table = map<ProviderId, Provider>

  /** `UPDATE ... WHERE id = ?`, which touches no row when there is none. */
  function Write(t: Table, id: ProviderId, row: Provider): Table {
    if id in t then t[id := row] else t
  }

  function WithStatus(t: Table, id: ProviderId, status: Status): Table {
    if id in t then Write(t, id, t[id].(status := status)) else t
  }

  predicate OverThreshold(p: Provider) {
    p.quotaLimit.Some? && p.quotaLimit.value > 0 &&
    Quotient(WrapI64(p.quotaUsed * 100), p.quotaLimit.value) >= p.quotaThreshold
  }

  /** One request's bookkeeping: the row afterwards, and whether the alert goes out. */
  function Use(p: Provider, tokens: int, marked: bool): (Provider, bool) {
    var added := p.(quotaUsed := p.quotaUsed + tokens);
    if !added.alertSent && OverThreshold(added) then
      (if marked then added.(alertSent := true) else added, true)
    else
      (added, false)
  }

  function Synced(p: Provider, official: int): Provider {
    p.(quotaUsed := official, alertSent := false)
  }

  /** The rule of Euclidean division that `/` follows, and what it says about a bound on the quotient. */
  lemma DivideIff(x: nat, limit: nat, bound: int)
    requires 0 < limit
    ensures x / limit >= bound <==> x >= bound * limit
  {
    var q := x / limit;
    assert x == q * limit + x % limit;
    if q >= bound {
      Ordered(bound, q, limit);
    } else {
      Ordered(q + 1, bound, limit);
      assert (q + 1) * limit == q * limit + limit;
    }
  }

  lemma Ordered(x: int, y: int, factor: nat)
    requires x <= y
    ensures x * factor <= y * factor
  {
    assert y * factor - x * factor == (y - x) * factor;
  }

  /** The usage, times a hundred, as the code computes it. */
  function Scaled(used: int): int {
    WrapI64(used * 100)
  }

  /**
   What the test compares, for any positive limit and any threshold: the wrapped product with `threshold`
   percent of the limit. Without such a limit it never holds. For thresholds that are not positive, truncation towards zero grants a little more.
   */
  lemma OverThresholdIff(p: Provider)
    ensures OverThreshold(p)
       <==> && p.quotaLimit.Some? && 0 < p.quotaLimit.value
            && var (limit, threshold) := (p.quotaLimit.value, p.quotaThreshold);
               if threshold > 0 then Scaled(p.quotaUsed) >= threshold * limit
               else Scaled(p.quotaUsed) > (threshold - 1) * limit
  {
    if p.quotaLimit.Some? && 0 < p.quotaLimit.value {
      LimitedIff(p);
    }
  }

  lemma LimitedIff(p: Provider)
    requires p.quotaLimit.Some? && 0 < p.quotaLimit.value
    ensures var (limit, threshold) := (p.quotaLimit.value, p.quotaThreshold);
            OverThreshold(p) <==> if threshold > 0 then Scaled(p.quotaUsed) >= threshold * limit
                                  else Scaled(p.quotaUsed) > (threshold - 1) * limit
  {
    var limit, threshold, x := p.quotaLimit.value, p.quotaThreshold, Scaled(p.quotaUsed);
    if 0 <= x {
      DivideIff(x, limit, threshold);
      if threshold <= 0 {
        Ordered(threshold - 1, -1, limit);
      }
    } else {
      DivideIff(-x, limit, 1 - threshold);
      assert (1 - threshold) * limit == -((threshold - 1) * limit);
      if threshold > 0 {
        Ordered(0, threshold, limit);
      }
    }
  }

  /** The test should say whether usage is at least `threshold` percent of the limit. */
  ghost predicate TestIsRight(used: int, limit: int, threshold: int) {
    OverThreshold(Provider(Active, used, Some(limit), threshold, false)) <==> used * 100 >= threshold * limit
  }

  /** Whatever limit and threshold are set. */
  ghost predicate TestIsAlwaysRight(used: int) {
    forall limit, threshold :: 0 < limit <= I64_MAX && 0 < threshold ==> TestIsRight(used, limit, threshold)
  }

  lemma FittingTestIsRight(used: int, limit: int, threshold: int)
    requires 0 < limit && 0 < threshold
    requires IsI64(used * 100) || (used < 0 && Scaled(used) <= 0)
    ensures TestIsRight(used, limit, threshold)
  {
    OverThresholdIff(Provider(Active, used, Some(limit), threshold, false));
    Ordered(1, threshold, limit);
  }

  lemma EvenStaysBelow(x: int)
    requires IsI64(x) && x % 2 == 0
    ensures x < I64_MAX
  {
  }

  /** One percent of the largest limit: the wrapped product is even and the limit odd, so it never gets there. */
  lemma WrappedTestIsWrong(used: int)
    requires used * 100 > I64_MAX
    ensures !TestIsRight(used, I64_MAX, 1)
  {
    var scaled := used * 100;
    OverThresholdIff(Provider(Active, used, Some(I64_MAX), 1, false));
    WrapKeepsParity(scaled);
    assert scaled == 2 * (used * 50);
    EvenStaysBelow(WrapI64(scaled));
  }

  lemma NegativeTestIsWrong(used: int)
    requires used < 0 && Scaled(used) > 0
    ensures !TestIsRight(used, 1, 1)
  {
    OverThresholdIff(Provider(Active, used, Some(1), 1, false));
  }

  /**
   The alert test is right for every limit and threshold exactly if a hundred times the usage fits an
   `i64`, or is negative and stays so when it wraps. In particular it is wrong, for some setting, for
   every usage above `i64::MAX / 100`.
   */
  lemma TestIsAlwaysRightIff(used: int)
    ensures TestIsAlwaysRight(used) <==> IsI64(used * 100) || (used < 0 && Scaled(used) <= 0)
  {
    if IsI64(used * 100) || (used < 0 && Scaled(used) <= 0) {
      forall limit, threshold | 0 < limit <= I64_MAX && 0 < threshold
        ensures TestIsRight(used, limit, threshold)
      {
        FittingTestIsRight(used, limit, threshold);
      }
    } else if used >= 0 {
      WrappedTestIsWrong(used);
    } else {
      NegativeTestIsWrong(used);
    }
  }

  /** A provider over its limit that raises no alert. */
  lemma OverThresholdCanWrap()
    ensures var used := I64_MAX / 100 + 1;
            var p := Provider(Active, used, Some(1), 80, false);
            IsI64(used) && p.quotaUsed >= p.quotaLimit.value && !OverThreshold(p)
  {
  }

  // ----- one alert between syncs -----

  /** Adding usage and marking the alert are separate statements, so requests overlap between them. */
  datatype Event = Add(request: nat, tokens: int) | Mark(request: nat, written: bool) | Sync(official: int)

  /** The row, and the requests that have found an alert due and not yet sent it. */
  datatype Quota = Quota(row: Provider, due: set<nat>)

  function Next(q: Quota, event: Event): Quota {
    match event
    case Add(r, tokens) =>
      var row := q.row.(quotaUsed := q.row.quotaUsed + tokens);
      Quota(row, if !row.alertSent && OverThreshold(row) then q.due + {r} else q.due - {r})
    case Mark(r, written) =>
      Quota(if r in q.due && written then q.row.(alertSent := true) else q.row, q.due - {r})
    case Sync(official) => q.(row := Synced(q.row, official))
  }

  function After(p: Provider, events: seq<Event>): Quota {
    if events == [] then Quota(p, {}) else Next(After(p, events[..|events| - 1]), events[|events| - 1])
  }

  /** The tokens added by these events. */
  function Added(events: seq<Event>): int {
    if events == [] then 0
    else
      var last := events[|events| - 1];
      Added(events[..|events| - 1]) + (if last.Add? then last.tokens else 0)
  }

  /** After a sync the usage is the official figure and what has been added since. */
  lemma {:induction false} UsageSinceSync(p: Provider, events: seq<Event>, more: seq<Event>)
    requires forall k :: 0 <= k < |more| ==> !more[k].Sync?
    ensures events == [] ==> After(p, events + more).row.quotaUsed == p.quotaUsed + Added(more)
    ensures events != [] && events[|events| - 1].Sync?
            ==> After(p, events + more).row.quotaUsed == events[|events| - 1].official + Added(more)
    decreases |more|
  {
    if more == [] {
      assert events + more == events;
    } else {
      var init := more[..|more| - 1];
      assert (events + more)[..|events + more| - 1] == events + init;
      UsageSinceSync(p, events, init);
    }
  }

  /** A request's bookkeeping with nothing in between is its two statements, one after the other. */
  lemma UseIsAddThenMark(p: Provider, r: nat, tokens: int, written: bool)
    ensures var added := Next(Quota(p, {}), Add(r, tokens));
            var (row, alert) := Use(p, tokens, written);
            && Next(added, Mark(r, written)) == Quota(row, {})
            && (alert <==> r in added.due)
            && row.quotaUsed == p.quotaUsed + tokens
  {
    var added := Next(Quota(p, {}), Add(r, tokens));
    assert added.due - {r} == {};
  }

  /** The `i`-th event sends an alert. */
  predicate Alerts(p: Provider, events: seq<Event>, i: nat)
    requires i < |events|
  {
    events[i].Mark? && events[i].request in After(p, events[..i]).due
  }

  /** An event of request `r`'s own. */
  predicate Concerns(event: Event, r: nat) {
    (event.Add? || event.Mark?) && event.request == r
  }

  /** The last event of request `r`'s own. */
  function LastOwn(events: seq<Event>, r: nat): (k: Option<nat>)
    ensures k.Some? ==> k.value < |events| && Concerns(events[k.value], r)
  {
    if events == [] then None
    else if Concerns(events[|events| - 1], r) then Some(|events| - 1)
    else LastOwn(events[..|events| - 1], r)
  }

  /** Event `k` adds usage and leaves the row over threshold with no alert marked. */
  predicate FindsDue(p: Provider, events: seq<Event>, k: nat)
    requires k < |events|
  {
    var row := After(p, events[..k + 1]).row;
    events[k].Add? && !row.alertSent && OverThreshold(row)
  }

  /** A request is due exactly if its last event was an addition that found the alert due. */
  lemma {:induction false} DueIff(p: Provider, events: seq<Event>, r: nat)
    ensures r in After(p, events).due
       <==> LastOwn(events, r).Some? && FindsDue(p, events, LastOwn(events, r).value)
  {
    if events != [] {
      var n := |events| - 1;
      if Concerns(events[n], r) {
        assert events[..n + 1] == events;
      } else {
        DueIff(p, events[..n], r);
        if LastOwn(events[..n], r).Some? {
          var k := LastOwn(events[..n], r).value;
          assert events[..n][..k + 1] == events[..k + 1];
        }
      }
    }
  }

  /** Event `i` alerts and writes the mark, and no sync has cleared it since. */
  ghost predicate MarkedBy(p: Provider, events: seq<Event>, i: nat) {
    && i < |events| && Alerts(p, events, i) && events[i].written
    && forall k :: i < k < |events| ==> !events[k].Sync?
  }

  /** Some alert since the last sync got its mark written. */
  ghost predicate Marked(p: Provider, events: seq<Event>) {
    exists i :: MarkedBy(p, events, i)
  }

  ghost predicate NoSync(events: seq<Event>) {
    forall k :: 0 <= k < |events| ==> !events[k].Sync?
  }

  lemma MarkedByBefore(p: Provider, events: seq<Event>, i: nat)
    requires i < |events| - 1
    ensures var n := |events| - 1;
            MarkedBy(p, events, i) <==> MarkedBy(p, events[..n], i) && !events[n].Sync?
  {
    var n := |events| - 1;
    assert events[..n][..i] == events[..i];
    assert forall k :: 0 <= k < n ==> events[..n][k] == events[k];
  }

  lemma MarkedNext(p: Provider, events: seq<Event>)
    requires events != []
    ensures var n := |events| - 1;
            Marked(p, events)
            <==> (Alerts(p, events, n) && events[n].written) || (Marked(p, events[..n]) && !events[n].Sync?)
  {
    var n := |events| - 1;
    forall i: nat | i < n
      ensures MarkedBy(p, events, i) <==> MarkedBy(p, events[..n], i) && !events[n].Sync?
    {
      MarkedByBefore(p, events, i);
    }
    assert MarkedBy(p, events, n) <==> Alerts(p, events, n) && events[n].written;
  }

  /** The mark is set exactly if it was set at first and no sync came, or an alert since the last sync wrote it. */
  lemma {:induction false} AlertSentIff(p: Provider, events: seq<Event>)
    ensures After(p, events).row.alertSent <==> (p.alertSent && NoSync(events)) || Marked(p, events)
  {
    if events != [] {
      var n := |events| - 1;
      AlertSentIff(p, events[..n]);
      MarkedNext(p, events);
      assert NoSync(events) <==> NoSync(events[..n]) && !events[n].Sync? by {
        assert forall k :: 0 <= k < n ==> events[..n][k] == events[k];
      }
    }
  }

  /**
   When an alert goes out, in any interleaving: exactly if the request's last event before was an
   addition after which usage was over threshold, and the mark was not set then, neither from the start
   nor by an alert since the last sync.
   */
  lemma AlertIff(p: Provider, events: seq<Event>, j: nat)
    requires j < |events| && events[j].Mark?
    ensures var last := LastOwn(events[..j], events[j].request);
            Alerts(p, events, j)
            <==> && last.Some? && events[last.value].Add?
                 && var upTo := events[..last.value + 1];
                    OverThreshold(After(p, upTo).row) && !(p.alertSent && NoSync(upTo)) && !Marked(p, upTo)
  {
    var last := LastOwn(events[..j], events[j].request);
    DueIff(p, events[..j], events[j].request);
    if last.Some? {
      assert events[..j][..last.value + 1] == events[..last.value + 1];
      AlertSentIff(p, events[..last.value + 1]);
    }
  }

  /** A request with an alert due has added its usage. */
  lemma {:induction false} DueHasAdded(p: Provider, events: seq<Event>, r: nat)
    requires r in After(p, events).due
    ensures exists k :: 0 <= k < |events| && events[k].Add? && events[k].request == r
  {
    var init, last := events[..|events| - 1], events[|events| - 1];
    if last.Add? && last.request == r {
      assert events[|events| - 1].Add?;
    } else {
      DueHasAdded(p, init, r);
      var k :| 0 <= k < |init| && init[k].Add? && init[k].request == r;
      assert events[k] == init[k];
    }
  }

  /** Once the alert is marked, and until the next sync, no further request finds one due. */
  lemma {:induction false} MarkLasts(p: Provider, events: seq<Event>, i: nat, j: nat)
    requires i < j <= |events| && Alerts(p, events, i) && events[i].written
    requires forall k :: i < k < j ==> !events[k].Sync?
    ensures After(p, events[..j]).row.alertSent && After(p, events[..j]).due <= After(p, events[..i]).due
    decreases j
  {
    assert events[..j][..j - 1] == events[..j - 1];
    if i + 1 < j {
      MarkLasts(p, events, i, j - 1);
    }
  }

  /** After the mark a request is due exactly if it already was, and nothing of its own has happened since. */
  lemma {:induction false} DueAfterMarkIff(p: Provider, events: seq<Event>, i: nat, j: nat, r: nat)
    requires i < j <= |events| && Alerts(p, events, i) && events[i].written
    requires forall k :: i < k < j ==> !events[k].Sync?
    ensures r in After(p, events[..j]).due
       <==> && r in After(p, events[..i]).due && r != events[i].request
            && forall k :: i < k < j ==> !Concerns(events[k], r)
    decreases j
  {
    assert events[..j][..j - 1] == events[..j - 1];
    if i + 1 < j {
      DueAfterMarkIff(p, events, i, j - 1, r);
      MarkLasts(p, events, i, j - 1);
    }
  }

  /**
   When the alert repeats: once it has been marked, and with no sync in between, a later request
   alerts exactly if it had found the alert due before that mark, is not the request that marked, and
   neither added nor marked in the meantime.
   */
  lemma RepeatedAlertIff(p: Provider, events: seq<Event>, i: nat, j: nat)
    requires i < j < |events| && Alerts(p, events, i) && events[i].written && events[j].Mark?
    requires forall k :: i < k < j ==> !events[k].Sync?
    ensures Alerts(p, events, j)
       <==> && events[j].request in After(p, events[..i]).due && events[j].request != events[i].request
            && forall k :: i < k < j ==> !Concerns(events[k], events[j].request)
  {
    DueAfterMarkIff(p, events, i, j, events[j].request);
  }

  /**
   So a repeated alert between syncs comes from a request that had added its usage before the first
   one marked: requests that do not overlap alert at most once.
   */
  lemma RepeatedAlertsOverlap(p: Provider, events: seq<Event>, i: nat, j: nat)
    requires i < j < |events| && Alerts(p, events, i) && Alerts(p, events, j)
    requires events[i].written && forall k :: i < k < j ==> !events[k].Sync?
    ensures exists k :: 0 <= k < i && events[k].Add? && events[k].request == events[j].request
  {
    RepeatedAlertIff(p, events, i, j);
    DueHasAdded(p, events[..i], events[j].request);
    var k :| 0 <= k < i && events[..i][k].Add? && events[..i][k].request == events[j].request;
    assert events[k] == events[..i][k];
  }

  /** Requests that do overlap can both alert. */
  lemma OverlappingRequestsBothAlert()
    ensures var events := [Add(1, 80), Add(2, 10), Mark(1, true), Mark(2, true)];
            var p := Provider(Active, 0, Some(100), 80, false);
            Alerts(p, events, 2) && Alerts(p, events, 3)
  {
    var p := Provider(Active, 0, Some(100), 80, false);
    var events := [Add(1, 80), Add(2, 10), Mark(1, true), Mark(2, true)];
    var q1 := Next(Quota(p, {}), events[0]);
    var q2 := Next(q1, events[1]);
    assert events[..1][..0] == [] && events[..2][..1] == events[..1] && events[..3][..2] == events[..2];
    assert After(p, events[..1]) == q1;
    assert After(p, events[..2]) == q2;
    assert q2.due == {1, 2};
    assert After(p, events[..3]) == Next(q2, events[2]);
  }

  // ----- the repository -----

  class ProviderRepo {
    var rows: Table

    constructor (initial: Table)
      ensures rows == initial
    {
      rows := initial;
    }

    method SetStatus(id: ProviderId, status: Status) returns (ok: bool)
      modifies this
      ensures rows == WithStatus(old(rows), id, status) && ok == (id in old(rows))
    {
      if id !in rows {
        return false;
      }
      rows := rows[id := rows[id].(status := status)];
      return true;
    }

    /** None is the error for a missing row; otherwise the row as updated. */
    method AddUsage(id: ProviderId, tokens: int) returns (row: Option<Provider>)
      modifies this
      ensures id !in old(rows) ==> row == None && rows == old(rows)
      ensures id in old(rows)
              ==> row == Some(old(rows)[id].(quotaUsed := old(rows)[id].quotaUsed + tokens))
                  && rows == old(rows)[id := row.value]
    {
      if id !in rows {
        return None;
      }
      row := Some(rows[id].(quotaUsed := rows[id].quotaUsed + tokens));
      rows := rows[id := row.value];
    }

    method MarkAlertSent(id: ProviderId)
      modifies this
      ensures rows == if id in old(rows) then old(rows)[id := old(rows)[id].(alertSent := true)] else old(rows)
    {
      if id in rows {
        rows := rows[id := rows[id].(alertSent := true)];
      }
    }

    method SyncQuota(id: ProviderId, official: int)
      modifies this
      ensures rows == if id in old(rows) then old(rows)[id := Synced(old(rows)[id], official)] else old(rows)
    {
      if id in rows {
        rows := rows[id := rows[id].(quotaUsed := official, alertSent := false)];
      }
    }
  }
}
