/**
 API-token authentication: a ten-minute cache in front of the token table. Each request is one
 step; the table, the cache and the clocks are shared by all of them.

 There are two clocks. The cache's deadlines follow a monotonic one, `now`; a row's expiry follows the
 wall clock, `wall`, in milliseconds, about which nothing is assumed: it may be set forward or back.
 */
module TokenAuth {
  import opened Common
  import opened TimedCache

  const TTL: nat := 600 * SECOND

  type Hash = string

  datatype TokenStatus = Active | Revoked

  datatype TokenRow = TokenRow(id: string, account: string, status: TokenStatus,
                               expiresAt: Option<int>, revokedAt: Option<int>)

  /** What is cached for a token. */
  datatype TokenInfo = TokenInfo(account: string, status: string)

  datatype World = World(rows: map<Hash, TokenRow>, cache: Store<TokenInfo>)

  datatype Event =
    | Create(id: string, hash: Hash, account: string, expiresAt: Option<int>)
    | RevokeById(id: string)
    | RevokeByHash(hash: Hash)
    | Authenticate(hash: Hash)
    | DropCached(hash: Hash)

  datatype Step = At(now: nat, wall: int, event: Event)

  datatype Verdict = Accepted(account: string) | Rejected(why: string)

  function Key(hash: Hash): string {
    "token:" + hash
  }

  /** The row allows the token at `wall`: it is active and its expiry is not past. */
  predicate RowValid(rows: map<Hash, TokenRow>, hash: Hash, wall: int) {
    && hash in rows
    && rows[hash].status == Active
    && (rows[hash].expiresAt.None? || wall <= rows[hash].expiresAt.value)
  }

  function RevokedRow(row: TokenRow, wall: int): TokenRow {
    row.(status := Revoked, revokedAt := Some(wall))
  }

  /** Cache first; on a miss the table decides and the cache is filled. */
  function AuthStep(w: World, hash: Hash, now: nat, wall: int): (World, Verdict) {
    var swept := w.(cache := RemoveIfExpired(w.cache, Key(hash), now));
    match Lookup(swept.cache, Key(hash))
    case Some(info) =>
      if info.status != "active" then (swept, Rejected("token revoked")) else (swept, Accepted(info.account))
    case None =>
      if hash !in w.rows then (swept, Rejected("invalid token"))
      else if w.rows[hash].status != Active then (swept, Rejected("token revoked"))
      else if w.rows[hash].expiresAt.Some? && w.rows[hash].expiresAt.value < wall then (swept, Rejected("token expired"))
      else
        var info := TokenInfo(w.rows[hash].account, "active");
        (swept.(cache := swept.cache[Key(hash) := Entry(info, Some(now + TTL))]), Accepted(info.account))
  }

  function WorldStep(w: World, s: Step): World {
    match s.event
    case Create(id, hash, account, expiresAt) =>
      if hash in w.rows || (exists h :: h in w.rows && w.rows[h].id == id) then w
      else w.(rows := w.rows[hash := TokenRow(id, account, Active, expiresAt, None)])
    case RevokeById(id) =>
      w.(rows := map h | h in w.rows :: if w.rows[h].id == id then RevokedRow(w.rows[h], s.wall) else w.rows[h])
    case RevokeByHash(hash) =>
      w.(rows := if hash in w.rows then w.rows[hash := RevokedRow(w.rows[hash], s.wall)] else w.rows)
    case Authenticate(hash) => AuthStep(w, hash, s.now, s.wall).0
    case DropCached(hash) => w.(cache := w.cache - {Key(hash)})
  }

  function After(steps: seq<Step>): World {
    if steps == [] then World(map[], map[]) else WorldStep(After(steps[..|steps| - 1]), steps[|steps| - 1])
  }

  /** What step `n`, an authentication of `hash`, answers. */
  function VerdictAt(steps: seq<Step>, n: nat, hash: Hash): Verdict
    requires n < |steps|
  {
    AuthStep(After(steps[..n]), hash, steps[n].now, steps[n].wall).1
  }

  predicate InTimeOrder(steps: seq<Step>) {
    forall i, j :: 0 <= i <= j < |steps| ==> steps[i].now <= steps[j].now
  }

  /** Step `n` finds `hash` missing from the cache but valid in the table, and fills the cache. */
  predicate Fills(steps: seq<Step>, n: nat, hash: Hash)
    requires n < |steps|
  {
    var w := After(steps[..n]);
    && steps[n].event == Authenticate(hash)
    && Key(hash) !in RemoveIfExpired(w.cache, Key(hash), steps[n].now)
    && RowValid(w.rows, hash, steps[n].wall)
  }

  /** The last step that filled the cache for `hash` and has not been undone since. */
  function LastFill(steps: seq<Step>, hash: Hash): (m: Option<nat>)
    ensures m.Some? ==> m.value < |steps|
  {
    if steps == [] then None
    else
      var n := |steps| - 1;
      if Fills(steps, n, hash) then Some(n)
      else if steps[n].event == DropCached(hash) then None
      else LastFill(steps[..n], hash)
  }

  // ----- what the cache knows -----

  lemma KeysDiffer(hash: Hash, other: Hash)
    requires Key(hash) == Key(other)
    ensures hash == other
  {
    assert Key(hash)[6..] == hash && Key(other)[6..] == other;
  }

  lemma {:induction false} FillIsValid(steps: seq<Step>, hash: Hash)
    requires LastFill(steps, hash).Some?
    ensures Fills(steps, LastFill(steps, hash).value, hash)
  {
    var n := |steps| - 1;
    if !Fills(steps, n, hash) {
      var m := LastFill(steps[..n], hash).value;
      FillIsValid(steps[..n], hash);
      assert steps[..n][..m] == steps[..m];
    }
  }

  /** Rows are never deleted, keep their account, and are never active again once revoked. */
  ghost predicate RowsKept(before: map<Hash, TokenRow>, after: map<Hash, TokenRow>) {
    forall h :: h in before ==>
      && h in after
      && after[h].id == before[h].id && after[h].account == before[h].account
      && after[h].expiresAt == before[h].expiresAt
      && (before[h].status == Revoked ==> after[h].status == Revoked)
  }

  lemma StepAges(w: World, s: Step)
    ensures RowsKept(w.rows, WorldStep(w, s).rows)
  {
    var rows := WorldStep(w, s).rows;
    match s.event {
      case Create(_, _, _, _) =>
      case RevokeById(_) =>
      case RevokeByHash(_) =>
      case Authenticate(_) => assert rows == w.rows;
      case DropCached(_) => assert rows == w.rows;
    }
  }

  lemma AgesTransitive(first: map<Hash, TokenRow>, second: map<Hash, TokenRow>, third: map<Hash, TokenRow>)
    requires RowsKept(first, second) && RowsKept(second, third)
    ensures RowsKept(first, third)
  {
  }

  lemma {:induction false} RowsOnlyAge(steps: seq<Step>, m: nat)
    requires m <= |steps|
    ensures RowsKept(After(steps[..m]).rows, After(steps).rows)
  {
    if m == |steps| {
      assert steps[..m] == steps;
    } else {
      var init := steps[..|steps| - 1];
      assert init[..m] == steps[..m];
      RowsOnlyAge(init, m);
      StepAges(After(init), steps[|init|]);
      AgesTransitive(After(steps[..m]).rows, After(init).rows, After(steps).rows);
    }
  }

  /** The cache entry for `hash` is the one its last fill left, unless it has expired meanwhile. */
  ghost predicate CacheKnows(steps: seq<Step>, hash: Hash, now: nat) {
    var w, fill := After(steps), LastFill(steps, hash);
    && (Key(hash) in w.cache ==> fill.Some?)
    && (fill.Some? ==>
          var m := fill.value;
          && hash in w.rows
          && (Key(hash) in w.cache ==>
                w.cache[Key(hash)] == Entry(TokenInfo(w.rows[hash].account, "active"), Some(steps[m].now + TTL)))
          && (now < steps[m].now + TTL ==> Key(hash) in w.cache))
  }

  lemma {:induction false} CacheKnowsAlways(steps: seq<Step>, hash: Hash, now: nat)
    requires InTimeOrder(steps) && (steps != [] ==> steps[|steps| - 1].now <= now)
    ensures CacheKnows(steps, hash, now)
  {
    if steps != [] {
      var n := |steps| - 1;
      CacheKnowsAlways(steps[..n], hash, steps[n].now);
      if steps[n].event == Authenticate(hash) {
        AuthKeepsKnowledge(steps, hash, now);
      } else {
        OthersKeepKnowledge(steps, hash, now);
      }
    }
  }

  /** Nothing but its own authentications and its own removal touches the entry for `hash`. */
  lemma OthersKeepEntry(w: World, s: Step, hash: Hash)
    requires s.event != Authenticate(hash)
    ensures var w' := WorldStep(w, s);
            if s.event == DropCached(hash) then Key(hash) !in w'.cache
            else (Key(hash) in w'.cache <==> Key(hash) in w.cache)
                 && (Key(hash) in w.cache ==> w'.cache[Key(hash)] == w.cache[Key(hash)])
  {
    if s.event.Authenticate? || s.event.DropCached? {
      if Key(s.event.hash) == Key(hash) {
        KeysDiffer(s.event.hash, hash);
      }
    }
  }

  lemma OthersKeepKnowledge(steps: seq<Step>, hash: Hash, now: nat)
    requires steps != [] && steps[|steps| - 1].event != Authenticate(hash) && steps[|steps| - 1].now <= now
    requires CacheKnows(steps[..|steps| - 1], hash, steps[|steps| - 1].now)
    ensures CacheKnows(steps, hash, now)
  {
    var n := |steps| - 1;
    OthersKeepEntry(After(steps[..n]), steps[n], hash);
    StepAges(After(steps[..n]), steps[n]);
  }

  lemma AuthKeepsKnowledge(steps: seq<Step>, hash: Hash, now: nat)
    requires steps != [] && steps[|steps| - 1].event == Authenticate(hash) && steps[|steps| - 1].now <= now
    requires CacheKnows(steps[..|steps| - 1], hash, steps[|steps| - 1].now)
    ensures CacheKnows(steps, hash, now)
  {
    var n := |steps| - 1;
    var w := After(steps[..n]);
    assert After(steps) == AuthStep(w, hash, steps[n].now, steps[n].wall).0;
    assert After(steps).rows == w.rows;
  }

  // ----- main results -----

  /**
   When a token is accepted: exactly when the table allows it now, or its last fill, at a moment
   when the table allowed it, is less than the time-to-live ago. The account is the row's, and the
   reason of a refusal what is wrong with the row.
   */
  lemma AcceptedIff(steps: seq<Step>, n: nat, hash: Hash)
    requires InTimeOrder(steps) && n < |steps|
    ensures var w, fill, now := After(steps[..n]), LastFill(steps[..n], hash), steps[n].now;
            && (VerdictAt(steps, n, hash).Accepted?
                <==> RowValid(w.rows, hash, steps[n].wall) || (fill.Some? && now < steps[fill.value].now + 600_000_000_000))
            && (VerdictAt(steps, n, hash).Accepted? ==>
                  hash in w.rows && VerdictAt(steps, n, hash).account == w.rows[hash].account)
            && (VerdictAt(steps, n, hash).Rejected? ==>
                  VerdictAt(steps, n, hash).why
                  == if hash !in w.rows then "invalid token"
                     else if w.rows[hash].status == Revoked then "token revoked" else "token expired")
  {
    CacheKnowsAlways(steps[..n], hash, steps[n].now);
  }

  /** Step `m` comes at a moment when the table allows `hash` for `account`. */
  ghost predicate ValidMoment(steps: seq<Step>, m: nat, hash: Hash, account: string) {
    && m < |steps|
    && RowValid(After(steps[..m]).rows, hash, steps[m].wall)
    && After(steps[..m]).rows[hash].account == account
  }

  /** Bounded staleness: behind every acceptance lies a valid moment less than ten minutes old. */
  lemma StalenessIsBounded(steps: seq<Step>, n: nat, hash: Hash) returns (m: nat)
    requires InTimeOrder(steps) && n < |steps| && VerdictAt(steps, n, hash).Accepted?
    ensures m <= n && steps[n].now < steps[m].now + 600_000_000_000
    ensures ValidMoment(steps, m, hash, VerdictAt(steps, n, hash).account)
  {
    AcceptedIff(steps, n, hash);
    if RowValid(After(steps[..n]).rows, hash, steps[n].wall) {
      m := n;
    } else {
      m := LastFill(steps[..n], hash).value;
      FillIsValid(steps[..n], hash);
      assert steps[..n][..m] == steps[..m];
      RowsOnlyAge(steps[..n], m);
    }
  }

  /** Step `r` revokes the row of `hash`. */
  predicate Revokes(steps: seq<Step>, r: nat, hash: Hash)
    requires r < |steps|
  {
    var rows := After(steps[..r]).rows;
    hash in rows && (steps[r].event == RevokeByHash(hash) || steps[r].event == RevokeById(rows[hash].id))
  }

  /** Step `n` creates the row of `hash`: neither the hash nor the id is taken. */
  predicate CreatesAt(steps: seq<Step>, n: nat, hash: Hash)
    requires n < |steps|
  {
    var rows, e := After(steps[..n]).rows, steps[n].event;
    e.Create? && e.hash == hash && hash !in rows && forall h :: h in rows ==> rows[h].id != e.id
  }

  ghost predicate Created(steps: seq<Step>, hash: Hash) {
    exists n :: 0 <= n < |steps| && CreatesAt(steps, n, hash)
  }

  ghost predicate RevokedBy(steps: seq<Step>, hash: Hash) {
    exists r :: 0 <= r < |steps| && Revokes(steps, r, hash)
  }

  /** What one step does to the row of `hash`. */
  lemma RowNext(w: World, s: Step, hash: Hash)
    ensures var (rows, rows', e) := (w.rows, WorldStep(w, s).rows, s.event);
            var creates := e.Create? && e.hash == hash && hash !in rows && forall h :: h in rows ==> rows[h].id != e.id;
            && (hash in rows' <==> hash in rows || creates)
            && (creates ==> rows'[hash] == TokenRow(e.id, e.account, Active, e.expiresAt, None))
            && (hash in rows ==>
                  rows'[hash] == if e == RevokeByHash(hash) || e == RevokeById(rows[hash].id)
                                 then rows[hash].(status := Revoked, revokedAt := Some(s.wall)) else rows[hash])
  {
  }

  lemma StepBefore(steps: seq<Step>, i: nat, hash: Hash)
    requires i < |steps| - 1
    ensures CreatesAt(steps[..|steps| - 1], i, hash) <==> CreatesAt(steps, i, hash)
    ensures Revokes(steps[..|steps| - 1], i, hash) <==> Revokes(steps, i, hash)
  {
    assert steps[..|steps| - 1][..i] == steps[..i];
  }

  lemma CreatedNext(steps: seq<Step>, hash: Hash)
    requires steps != []
    ensures var n := |steps| - 1;
            Created(steps, hash) <==> Created(steps[..n], hash) || CreatesAt(steps, n, hash)
  {
    var n := |steps| - 1;
    if i :| 0 <= i < n && CreatesAt(steps[..n], i, hash) {
      StepBefore(steps, i, hash);
    }
    if i :| 0 <= i < n && CreatesAt(steps, i, hash) {
      StepBefore(steps, i, hash);
    }
  }

  lemma RevokedByNext(steps: seq<Step>, hash: Hash)
    requires steps != []
    ensures var n := |steps| - 1;
            RevokedBy(steps, hash) <==> RevokedBy(steps[..n], hash) || Revokes(steps, n, hash)
  {
    var n := |steps| - 1;
    if i :| 0 <= i < n && Revokes(steps[..n], i, hash) {
      StepBefore(steps, i, hash);
    }
    if i :| 0 <= i < n && Revokes(steps, i, hash) {
      StepBefore(steps, i, hash);
    }
  }

  /** A token has a row exactly if it was created, and the row is revoked exactly if some step revoked it. */
  lemma {:induction false} RowIff(steps: seq<Step>, hash: Hash)
    ensures hash in After(steps).rows <==> Created(steps, hash)
    ensures hash in After(steps).rows ==> (After(steps).rows[hash].status == Revoked <==> RevokedBy(steps, hash))
    ensures hash !in After(steps).rows ==> !RevokedBy(steps, hash)
  {
    if steps != [] {
      var n := |steps| - 1;
      RowIff(steps[..n], hash);
      RowNext(After(steps[..n]), steps[n], hash);
      CreatedNext(steps, hash);
      RevokedByNext(steps, hash);
    }
  }

  /** And it keeps the id, the account and the expiry it was created with. */
  lemma CreatedRowIs(steps: seq<Step>, n: nat, hash: Hash)
    requires n < |steps| && CreatesAt(steps, n, hash)
    ensures hash in After(steps).rows
    ensures var (row, e) := (After(steps).rows[hash], steps[n].event);
            row.id == e.id && row.account == e.account && row.expiresAt == e.expiresAt
  {
    RowNext(After(steps[..n]), steps[n], hash);
    assert steps[..n + 1][..n] == steps[..n];
    RowsOnlyAge(steps, n + 1);
  }

  lemma RevokedStaysRevoked(steps: seq<Step>, r: nat, n: nat, hash: Hash)
    requires r < n <= |steps| && Revokes(steps, r, hash)
    ensures hash in After(steps[..n]).rows && After(steps[..n]).rows[hash].status == Revoked
  {
    assert steps[..r + 1][..r] == steps[..r];
    assert After(steps[..r + 1]).rows[hash].status == Revoked;
    RowsOnlyAge(steps[..n], r + 1);
    assert steps[..n][..r + 1] == steps[..r + 1];
  }

  /** After a revocation the table no longer counts: only an unexpired fill still lets the token in. */
  lemma AfterRevocationIff(steps: seq<Step>, r: nat, n: nat, hash: Hash)
    requires InTimeOrder(steps) && r < n < |steps| && Revokes(steps, r, hash)
    ensures var fill := LastFill(steps[..n], hash);
            VerdictAt(steps, n, hash).Accepted? <==> fill.Some? && steps[n].now < steps[fill.value].now + 600_000_000_000
  {
    AcceptedIff(steps, n, hash);
    RevokedStaysRevoked(steps, r, n, hash);
  }

  /** No acceptance ten minutes or more after a revocation. */
  lemma RevocationTakesHold(steps: seq<Step>, r: nat, n: nat, hash: Hash)
    requires InTimeOrder(steps) && r < n < |steps| && Revokes(steps, r, hash)
    requires steps[r].now + 600_000_000_000 <= steps[n].now
    ensures VerdictAt(steps, n, hash).Rejected?
  {
    var fill := LastFill(steps[..n], hash);
    AfterRevocationIff(steps, r, n, hash);
    if fill.Some? {
      FillIsValid(steps[..n], hash);
      assert steps[..n][..fill.value] == steps[..fill.value];
      if r < fill.value {
        RevokedStaysRevoked(steps, r, fill.value, hash);
      }
    }
  }

  /** Revocation is not immediate, as the cache's documentation has it: this token is still let in. */
  lemma RevokedTokenStillAccepted()
    ensures var steps := [At(0, 0, Create("tok_1", "h", "acct", None)), At(0, 0, Authenticate("h")),
                          At(1, 1, RevokeById("tok_1")), At(2, 2, Authenticate("h"))];
            Revokes(steps, 2, "h") && VerdictAt(steps, 3, "h") == Accepted("acct")
  {
    var s0, s1 := At(0, 0, Create("tok_1", "h", "acct", None)), At(0, 0, Authenticate("h"));
    var s2, s3 := At(1, 1, RevokeById("tok_1")), At(2, 2, Authenticate("h"));
    var steps := [s0, s1, s2, s3];
    assert steps[..1] == [s0] && steps[..2] == [s0, s1] && steps[..3] == [s0, s1, s2];
    assert [s0][..0] == [] && [s0, s1][..1] == [s0] && [s0, s1, s2][..2] == [s0, s1];
    assert After([s0]) == World(map["h" := TokenRow("tok_1", "acct", Active, None, None)], map[]);
    assert After([s0, s1]).cache == map[Key("h") := Entry(TokenInfo("acct", "active"), Some(TTL))];
  }

  // ----- the objects -----

  /** The token table, the token cache and the handlers that use them. */
  class Authenticator {
    var rows: map<Hash, TokenRow>
    var cache: Store<TokenInfo>

    function Contents(): World
      reads this
    {
      World(rows, cache)
    }

    constructor ()
      ensures Contents() == World(map[], map[])
    {
      rows, cache := map[], map[];
    }

    method CreateToken(id: string, hash: Hash, account: string, expiresAt: Option<int>, now: nat, wall: int)
      modifies this
      ensures Contents() == WorldStep(old(Contents()), At(now, wall, Create(id, hash, account, expiresAt)))
    {
      if hash !in rows && !exists h :: h in rows && rows[h].id == id {
        rows := rows[hash := TokenRow(id, account, Active, expiresAt, None)];
      }
    }

    /** Revokes in the table only: the handler cannot tell which cache entry is the token's. */
    method RevokeToken(id: string, now: nat, wall: int) returns (found: bool)
      modifies this
      ensures Contents() == WorldStep(old(Contents()), At(now, wall, RevokeById(id)))
      ensures found <==> exists h :: h in old(rows) && old(rows)[h].id == id
    {
      found := exists h :: h in rows && rows[h].id == id;
      rows := map h | h in rows :: if rows[h].id == id then RevokedRow(rows[h], wall) else rows[h];
    }

    method RevokeTokenByHash(hash: Hash, now: nat, wall: int) returns (found: bool)
      modifies this
      ensures Contents() == WorldStep(old(Contents()), At(now, wall, RevokeByHash(hash)))
      ensures found <==> hash in old(rows)
    {
      found := hash in rows;
      if found {
        rows := rows[hash := RevokedRow(rows[hash], wall)];
      }
    }

    method DropCachedToken(hash: Hash, now: nat, wall: int)
      modifies this
      ensures Contents() == WorldStep(old(Contents()), At(now, wall, DropCached(hash)))
    {
      cache := cache - {Key(hash)};
    }

    method AuthenticateApiToken(hash: Hash, now: nat, wall: int) returns (verdict: Verdict)
      modifies this
      ensures (Contents(), verdict) == AuthStep(old(Contents()), hash, now, wall)
    {
      var key := Key(hash);
      if key in cache && Expired(cache[key], now) {
        cache := cache - {key};
      }
      if key in cache {
        if cache[key].value.status != "active" {
          return Rejected("token revoked");
        }
        return Accepted(cache[key].value.account);
      }
      if hash !in rows {
        return Rejected("invalid token");
      }
      var row := rows[hash];
      if row.status != Active {
        return Rejected("token revoked");
      }
      if row.expiresAt.Some? && row.expiresAt.value < wall {
        return Rejected("token expired");
      }
      cache := cache[key := Entry(TokenInfo(row.account, "active"), Some(now + TTL))];
      return Accepted(row.account);
    }
  }
}
