/**
 Admin sessions: stateful access tokens, and refresh tokens that are rotated at every use. Each
 request is one step. A login starts a chain; each successful refresh of one of the chain's refresh
 tokens continues it.

 Every database call may fail. The failures of the two revoking UPDATEs are discarded by the
 handlers, which go on as if the tokens had been revoked.
 */
module AdminSessions {

  type Hash = string

  const ACCESS_TOKEN_TTL_SECS: nat := 3600
  const REFRESH_TOKEN_TTL_SECS: nat := 7 * 24 * 3600

  datatype AccessRow = AccessRow(admin: string, expiresAt: int, revoked: bool)

  datatype RefreshRow = RefreshRow(admin: string, access: Hash, expiresAt: int, revoked: bool)

  datatype Tables = Tables(access: map<Hash, AccessRow>, refresh: map<Hash, RefreshRow>)

  const EMPTY := Tables(map[], map[])

  /** Which database calls of a request fail. */
  datatype Faults = Faults(find: bool, revokeRefresh: bool, revokeAccess: bool, insertAccess: bool, insertRefresh: bool)

  datatype Request =
    | Login(admin: string, newAccess: Hash, newRefresh: Hash, now: nat, faults: Faults)
    | Refresh(token: Hash, newAccess: Hash, newRefresh: Hash, now: nat, faults: Faults)
    | Logout(token: Hash, faults: Faults)

  datatype Reply = Tokens(access: Hash, refresh: Hash) | LoggedOut | Unauthorized | Failed

  function RevokeAccess(t: Tables, h: Hash, fault: bool): Tables {
    if h in t.access && !fault then t.(access := t.access[h := t.access[h].(revoked := true)]) else t
  }

  function RevokeRefresh(t: Tables, h: Hash, fault: bool): Tables {
    if h in t.refresh && !fault then t.(refresh := t.refresh[h := t.refresh[h].(revoked := true)]) else t
  }

  /**
   The two inserts at the end of a login and of a refresh. They are separate statements: when the
   second one fails the first one stands.
   */
  function Issue(t: Tables, admin: string, newAccess: Hash, newRefresh: Hash, now: nat, faults: Faults): (Tables, Reply) {
    if faults.insertAccess || newAccess in t.access then (t, Failed)
    else
      var t1 := t.(access := t.access[newAccess := AccessRow(admin, now + ACCESS_TOKEN_TTL_SECS, false)]);
      if faults.insertRefresh || newRefresh in t.refresh then (t1, Failed)
      else
        (t1.(refresh := t.refresh[newRefresh := RefreshRow(admin, newAccess, now + REFRESH_TOKEN_TTL_SECS, false)]),
         Tokens(newAccess, newRefresh))
  }

  /** The check that a refresh must pass before anything is changed. */
  predicate Refreshable(t: Tables, token: Hash, now: nat) {
    token in t.refresh && !t.refresh[token].revoked && now <= t.refresh[token].expiresAt
  }

  /** The request presents refresh token `h` and passes the check. */
  predicate Uses(t: Tables, r: Request, h: Hash) {
    r.Refresh? && r.token == h && !r.faults.find && Refreshable(t, h, r.now)
  }

  /** The tables once a use has made its two revocations, so far as they get through. */
  function Revoked(t: Tables, r: Request): Tables
    requires r.Refresh? && Uses(t, r, r.token)
  {
    RevokeAccess(RevokeRefresh(t, r.token, r.faults.revokeRefresh), t.refresh[r.token].access, r.faults.revokeAccess)
  }

  function Serve(t: Tables, r: Request): (Tables, Reply) {
    match r
    case Login(admin, newAccess, newRefresh, now, faults) => Issue(t, admin, newAccess, newRefresh, now, faults)
    case Refresh(token, newAccess, newRefresh, now, faults) =>
      if faults.find then (t, Failed)
      else if !Refreshable(t, token, now) then (t, Unauthorized)
      else Issue(Revoked(t, r), t.refresh[token].admin, newAccess, newRefresh, now, faults)
    case Logout(token, faults) => (RevokeAccess(t, token, faults.revokeAccess), LoggedOut)
  }

  function Run(requests: seq<Request>): Tables {
    if requests == [] then EMPTY else Serve(Run(requests[..|requests| - 1]), requests[|requests| - 1]).0
  }

  function ReplyTo(requests: seq<Request>, n: nat): Reply
    requires n < |requests|
  {
    Serve(Run(requests[..n]), requests[n]).1
  }

  /** Request `n` uses refresh token `h`. */
  predicate UsedAt(requests: seq<Request>, n: nat, h: Hash)
    requires n < |requests|
  {
    Uses(Run(requests[..n]), requests[n], h)
  }

  // ----- when a refresh token is revoked -----

  /** Some use of `h` got its revocation written. */
  ghost predicate RevocationWritten(requests: seq<Request>, h: Hash) {
    exists n :: 0 <= n < |requests| && UsedAt(requests, n, h) && !requests[n].faults.revokeRefresh
  }

  lemma UsedBefore(requests: seq<Request>, n: nat, h: Hash)
    requires n < |requests| - 1
    ensures UsedAt(requests[..|requests| - 1], n, h) <==> UsedAt(requests, n, h)
  {
    assert requests[..|requests| - 1][..n] == requests[..n];
  }

  lemma RevocationWrittenNext(requests: seq<Request>, h: Hash)
    requires requests != []
    ensures var n := |requests| - 1;
            RevocationWritten(requests, h)
            <==> RevocationWritten(requests[..n], h)
                 || (UsedAt(requests, n, h) && !requests[n].faults.revokeRefresh)
  {
    var init := requests[..|requests| - 1];
    if RevocationWritten(init, h) {
      var n :| 0 <= n < |init| && UsedAt(init, n, h) && !init[n].faults.revokeRefresh;
      UsedBefore(requests, n, h);
      assert UsedAt(requests, n, h) && !requests[n].faults.revokeRefresh;
    }
    if RevocationWritten(requests, h) {
      var n :| 0 <= n < |requests| && UsedAt(requests, n, h) && !requests[n].faults.revokeRefresh;
      if n < |init| {
        UsedBefore(requests, n, h);
        assert UsedAt(init, n, h) && !init[n].faults.revokeRefresh;
      }
    }
  }

  /** What one request does to the row of refresh token `h`. */
  lemma RefreshRowNext(t: Tables, r: Request, h: Hash)
    requires h in t.refresh
    ensures var t' := Serve(t, r).0;
            && h in t'.refresh
            && t'.refresh[h] == t.refresh[h].(revoked := t'.refresh[h].revoked)
            && (t'.refresh[h].revoked <==> t.refresh[h].revoked || (Uses(t, r, h) && !r.faults.revokeRefresh))
  {
  }

  lemma FreshRefreshRow(t: Tables, r: Request, h: Hash)
    requires h !in t.refresh
    ensures h in Serve(t, r).0.refresh <==> Serve(t, r).1.Tokens? && Serve(t, r).1.refresh == h
    ensures h in Serve(t, r).0.refresh ==> !Serve(t, r).0.refresh[h].revoked
  {
  }

  lemma {:induction false} UnknownTokenUnused(requests: seq<Request>, h: Hash)
    requires h !in Run(requests).refresh
    ensures !RevocationWritten(requests, h)
  {
    if requests != [] {
      var n := |requests| - 1;
      if h in Run(requests[..n]).refresh {
        RefreshRowNext(Run(requests[..n]), requests[n], h);
      } else {
        UnknownTokenUnused(requests[..n], h);
      }
      RevocationWrittenNext(requests, h);
    }
  }

  /** A refresh token is revoked exactly if some use of it got its revocation written. */
  lemma {:induction false} RevokedIff(requests: seq<Request>, h: Hash)
    requires h in Run(requests).refresh
    ensures Run(requests).refresh[h].revoked <==> RevocationWritten(requests, h)
  {
    var n := |requests| - 1;
    var t := Run(requests[..n]);
    RevocationWrittenNext(requests, h);
    if h in t.refresh {
      RevokedIff(requests[..n], h);
      RefreshRowNext(t, requests[n], h);
    } else {
      UnknownTokenUnused(requests[..n], h);
      FreshRefreshRow(t, requests[n], h);
    }
  }

  /** Request `n` uses `h` and its revocation is lost. */
  predicate LostAt(requests: seq<Request>, n: nat, h: Hash)
    requires n < |requests|
  {
    UsedAt(requests, n, h) && requests[n].faults.revokeRefresh
  }

  function CountUses(requests: seq<Request>, h: Hash): nat {
    if requests == [] then 0
    else CountUses(requests[..|requests| - 1], h) + (if UsedAt(requests, |requests| - 1, h) then 1 else 0)
  }

  function CountLost(requests: seq<Request>, h: Hash): nat {
    if requests == [] then 0
    else CountLost(requests[..|requests| - 1], h) + (if LostAt(requests, |requests| - 1, h) then 1 else 0)
  }

  /**
   How often a refresh token has worked: once for each use whose revocation was lost, and once more
   if it is revoked. So it works at most once exactly if this sum is at most one.
   */
  lemma {:induction false} UsesAreCounted(requests: seq<Request>, h: Hash)
    ensures var t := Run(requests);
            CountUses(requests, h)
            == CountLost(requests, h) + (if h in t.refresh && t.refresh[h].revoked then 1 else 0)
  {
    if requests != [] {
      var n := |requests| - 1;
      var t := Run(requests[..n]);
      UsesAreCounted(requests[..n], h);
      if h in t.refresh {
        RefreshRowNext(t, requests[n], h);
      } else {
        FreshRefreshRow(t, requests[n], h);
      }
    }
  }

  /** So it has worked at most once exactly if at most one use came before any revocation of it was written. */
  lemma WorksAtMostOnceIff(requests: seq<Request>, h: Hash)
    ensures CountUses(requests, h) <= 1 <==> CountLost(requests, h) <= (if RevocationWritten(requests, h) then 0 else 1)
  {
    UsesAreCounted(requests, h);
    if h in Run(requests).refresh {
      RevokedIff(requests, h);
    } else {
      UnknownTokenUnused(requests, h);
    }
  }

  /** If no use of it loses its revocation, a refresh token works at most once and is revoked by that use. */
  lemma RefreshTokensWorkOnce(requests: seq<Request>, h: Hash)
    requires CountLost(requests, h) == 0
    ensures CountUses(requests, h) <= 1
    ensures h in Run(requests).refresh ==> (Run(requests).refresh[h].revoked <==> CountUses(requests, h) == 1)
  {
    UsesAreCounted(requests, h);
  }

  /** A token whose revocation was written is refused from then on, and changes nothing. */
  lemma UsedTokenIsRefused(requests: seq<Request>, r: Request)
    requires r.Refresh? && !r.faults.find && RevocationWritten(requests, r.token)
    ensures Serve(Run(requests), r) == (Run(requests), Unauthorized)
  {
    if r.token in Run(requests).refresh {
      RevokedIff(requests, r.token);
    }
  }

  const NO_FAULT := Faults(false, false, false, false, false)

  /** One lost revocation: the token works twice, and stands live beside its two successors. */
  lemma LostRevocationWorksTwice()
    ensures var requests := [Login("admin", "a0", "r0", 0, NO_FAULT),
                             Refresh("r0", "a1", "r1", 1, NO_FAULT.(revokeRefresh := true)),
                             Refresh("r0", "a2", "r2", 2, NO_FAULT.(revokeRefresh := true))];
            && ReplyTo(requests, 1) == Tokens("a1", "r1") && ReplyTo(requests, 2) == Tokens("a2", "r2")
            && LiveRefresh(Run(requests), "r0") && LiveRefresh(Run(requests), "r1") && LiveRefresh(Run(requests), "r2")
  {
    var login := Login("admin", "a0", "r0", 0, NO_FAULT);
    var once := Refresh("r0", "a1", "r1", 1, NO_FAULT.(revokeRefresh := true));
    var twice := Refresh("r0", "a2", "r2", 2, NO_FAULT.(revokeRefresh := true));
    var requests := [login, once, twice];
    assert requests[..2][..1] == requests[..1] && requests[..1][..0] == [];
    assert Run(requests[..1]) == Serve(EMPTY, login).0;
    assert Run(requests[..2]) == Serve(Run(requests[..1]), once).0;
  }

  // ----- chains -----

  /** A request adds to the refresh table just the token it answers with. */
  lemma RefreshKeysNext(t: Tables, r: Request)
    ensures Serve(t, r).0.refresh.Keys
            == if Serve(t, r).1.Tokens? then t.refresh.Keys + {Serve(t, r).1.refresh} else t.refresh.Keys
  {
    forall h
      ensures h in Serve(t, r).0.refresh <==> h in t.refresh || (Serve(t, r).1.Tokens? && Serve(t, r).1.refresh == h)
    {
      if h in t.refresh {
        RefreshRowNext(t, r, h);
      } else {
        FreshRefreshRow(t, r, h);
      }
    }
  }

  /**
   Which login each refresh token descends from, by the number of that login's request. Just the
   tokens that were really issued have a chain.
   */
  function Chains(requests: seq<Request>): (chains: map<Hash, nat>)
    ensures chains.Keys == Run(requests).refresh.Keys
  {
    if requests == [] then map[]
    else
      var n := |requests| - 1;
      var chains := Chains(requests[..n]);
      RefreshKeysNext(Run(requests[..n]), requests[n]);
      if !ReplyTo(requests, n).Tokens? then chains
      else chains[ReplyTo(requests, n).refresh := ChainOf(requests, n, chains)]
  }

  /** The chain that request `n`, which is answered with tokens, starts or continues. */
  function ChainOf(requests: seq<Request>, n: nat, chains: map<Hash, nat>): nat
    requires n < |requests|
  {
    if requests[n].Refresh? && requests[n].token in chains then chains[requests[n].token] else n
  }

  lemma {:induction false} ChainsAreOfThePast(requests: seq<Request>)
    ensures forall h :: h in Chains(requests) ==> Chains(requests)[h] < |requests|
  {
    if requests != [] {
      ChainsAreOfThePast(requests[..|requests| - 1]);
    }
  }

  ghost predicate LiveRefresh(t: Tables, h: Hash) {
    h in t.refresh && !t.refresh[h].revoked
  }

  ghost predicate LiveAccess(t: Tables, h: Hash) {
    h in t.access && !t.access[h].revoked
  }

  /** The refresh tokens of chain `c` that are not revoked. */
  ghost function LiveInChain(requests: seq<Request>, c: nat): set<Hash> {
    set h | h in Run(requests).refresh && !Run(requests).refresh[h].revoked && Chains(requests)[h] == c
  }

  /** Request `n` uses a refresh token of chain `c`. */
  predicate UsesChain(requests: seq<Request>, n: nat, c: nat)
    requires n < |requests|
  {
    && requests[n].Refresh? && UsedAt(requests, n, requests[n].token)
    && Chains(requests[..n])[requests[n].token] == c
  }

  /** The login that starts chain `c` has been answered with tokens. */
  predicate Started(requests: seq<Request>, c: nat) {
    c < |requests| && requests[c].Login? && ReplyTo(requests, c).Tokens?
  }

  /** Uses of the chain that issued tokens although the revocation was lost. */
  function Branches(requests: seq<Request>, c: nat): nat {
    if requests == [] then 0
    else
      var n := |requests| - 1;
      Branches(requests[..n], c)
      + (if UsesChain(requests, n, c) && requests[n].faults.revokeRefresh && ReplyTo(requests, n).Tokens? then 1 else 0)
  }

  /** Uses of the chain that got the revocation written and then failed to issue tokens. */
  function DeadEnds(requests: seq<Request>, c: nat): nat {
    if requests == [] then 0
    else
      var n := |requests| - 1;
      DeadEnds(requests[..n], c)
      + (if UsesChain(requests, n, c) && !requests[n].faults.revokeRefresh && !ReplyTo(requests, n).Tokens? then 1 else 0)
  }

  lemma StartedNext(requests: seq<Request>, c: nat)
    requires requests != []
    ensures var n := |requests| - 1;
            Started(requests, c) <==> Started(requests[..n], c) || (c == n && requests[n].Login? && ReplyTo(requests, n).Tokens?)
  {
    assert c < |requests| - 1 ==> requests[..|requests| - 1][..c] == requests[..c];
  }

  lemma ChainIsPast(requests: seq<Request>, c: nat)
    requires |requests| <= c
    ensures LiveInChain(requests, c) == {}
  {
    ChainsAreOfThePast(requests);
  }

  lemma ReplyIsFresh(t: Tables, r: Request)
    requires Serve(t, r).1.Tokens?
    ensures Serve(t, r).1.refresh !in t.refresh
  {
  }

  /** What one more request does to a token's place among the chain's live ones. */
  lemma InChainNext(requests: seq<Request>, c: nat, h: Hash)
    requires requests != []
    ensures var n := |requests| - 1;
            h in LiveInChain(requests, c)
            <==> || (h in LiveInChain(requests[..n], c)
                     && !(UsesChain(requests, n, c) && !requests[n].faults.revokeRefresh && h == requests[n].token))
                 || (IssuesTo(requests, n, c) && h == ReplyTo(requests, n).refresh)
  {
    var n := |requests| - 1;
    var t := Run(requests[..n]);
    if ReplyTo(requests, n).Tokens? {
      ReplyIsFresh(t, requests[n]);
    }
    if h in t.refresh {
      RefreshRowNext(t, requests[n], h);
    } else {
      FreshRefreshRow(t, requests[n], h);
    }
  }

  /** Request `n` adds a refresh token to chain `c`. */
  predicate IssuesTo(requests: seq<Request>, n: nat, c: nat)
    requires n < |requests|
  {
    ReplyTo(requests, n).Tokens? && ChainOf(requests, n, Chains(requests[..n])) == c
  }

  /** The chain's live tokens after one more request: less the one revoked, and the one issued besides. */
  lemma LiveInChainNext(requests: seq<Request>, c: nat)
    requires requests != []
    ensures var n := |requests| - 1;
            var live, r := LiveInChain(requests[..n], c), requests[n];
            var kept := if UsesChain(requests, n, c) && !r.faults.revokeRefresh then live - {r.token} else live;
            && (UsesChain(requests, n, c) ==> r.token in live)
            && (IssuesTo(requests, n, c) ==> ReplyTo(requests, n).refresh !in live)
            && LiveInChain(requests, c) == if IssuesTo(requests, n, c) then kept + {ReplyTo(requests, n).refresh} else kept
  {
    var n := |requests| - 1;
    if ReplyTo(requests, n).Tokens? {
      ReplyIsFresh(Run(requests[..n]), requests[n]);
    }
    forall h {
      InChainNext(requests, c, h);
    }
  }

  /**
   Rotation, exactly: a chain's refresh tokens that are not revoked number one for its login, one more
   for each use that issued tokens with the revocation lost, one less for each that revoked in vain.
   */
  lemma {:induction false} LiveTokensAreCounted(requests: seq<Request>, c: nat)
    ensures |LiveInChain(requests, c)|
            == (if Started(requests, c) then 1 else 0) + Branches(requests, c) - DeadEnds(requests, c)
  {
    if requests == [] {
      ChainIsPast(requests, c);
    } else {
      var n := |requests| - 1;
      LiveTokensAreCounted(requests[..n], c);
      LiveInChainNext(requests, c);
      StartedNext(requests, c);
      if c == n {
        ChainIsPast(requests[..n], c);
      }
    }
  }

  /** So a login's chain has at most one live refresh token exactly while lost revocations are made up for. */
  lemma OneLiveRefreshTokenIff(requests: seq<Request>, c: nat)
    requires Started(requests, c)
    ensures |LiveInChain(requests, c)| <= 1 <==> Branches(requests, c) <= DeadEnds(requests, c)
  {
    LiveTokensAreCounted(requests, c);
  }

  /** Every use of the chain gets the refresh token's revocation written. */
  ghost predicate RotationsWritten(requests: seq<Request>, c: nat) {
    forall n :: 0 <= n < |requests| && UsesChain(requests, n, c) ==> !requests[n].faults.revokeRefresh
  }

  lemma RotationsWrittenPrefix(requests: seq<Request>, c: nat)
    requires requests != [] && RotationsWritten(requests, c)
    ensures RotationsWritten(requests[..|requests| - 1], c)
  {
    var init := requests[..|requests| - 1];
    forall n | 0 <= n < |init| && UsesChain(init, n, c)
      ensures !init[n].faults.revokeRefresh
    {
      assert init[..n] == requests[..n];
      assert UsesChain(requests, n, c);
    }
  }

  lemma {:induction false} WrittenChainsDoNotBranch(requests: seq<Request>, c: nat)
    requires RotationsWritten(requests, c)
    ensures Branches(requests, c) == 0
  {
    if requests != [] {
      RotationsWrittenPrefix(requests, c);
      WrittenChainsDoNotBranch(requests[..|requests| - 1], c);
    }
  }

  lemma TwoMembers(s: set<Hash>, x: Hash, y: Hash)
    requires |s| <= 1 && x in s && y in s
    ensures x == y
  {
    assert |s - {x}| == |s| - 1;
    assert x != y ==> y in s - {x};
  }

  /** Rotation: a chain that lost no refresh token's revocation has at most one that is not revoked. */
  lemma OneLiveRefreshToken(requests: seq<Request>, h: Hash, k: Hash)
    requires LiveRefresh(Run(requests), h) && LiveRefresh(Run(requests), k)
    requires Chains(requests)[h] == Chains(requests)[k] && RotationsWritten(requests, Chains(requests)[h])
    ensures h == k
  {
    var c := Chains(requests)[h];
    LiveTokensAreCounted(requests, c);
    WrittenChainsDoNotBranch(requests, c);
    TwoMembers(LiveInChain(requests, c), h, k);
  }

  // ----- access tokens -----

  /** The request revokes access token `a`, by logging out or by using the refresh token linked to it. */
  predicate RevokesAccess(t: Tables, r: Request, a: Hash) {
    && a in t.access && !r.Login? && !r.faults.revokeAccess
    && if r.Logout? then r.token == a else Uses(t, r, r.token) && t.refresh[r.token].access == a
  }

  /** Request `n` gets the revocation of access token `a` written. */
  predicate AccessRevokedAt(requests: seq<Request>, n: nat, a: Hash)
    requires n < |requests|
  {
    RevokesAccess(Run(requests[..n]), requests[n], a)
  }

  ghost predicate AccessRevocationWritten(requests: seq<Request>, a: Hash) {
    exists n :: 0 <= n < |requests| && AccessRevokedAt(requests, n, a)
  }

  lemma AccessRevokedBefore(requests: seq<Request>, n: nat, a: Hash)
    requires n < |requests| - 1
    ensures AccessRevokedAt(requests[..|requests| - 1], n, a) <==> AccessRevokedAt(requests, n, a)
  {
    assert requests[..|requests| - 1][..n] == requests[..n];
  }

  lemma AccessRevocationNext(requests: seq<Request>, a: Hash)
    requires requests != []
    ensures var n := |requests| - 1;
            AccessRevocationWritten(requests, a)
            <==> AccessRevocationWritten(requests[..n], a) || AccessRevokedAt(requests, n, a)
  {
    var init := requests[..|requests| - 1];
    if AccessRevocationWritten(init, a) {
      var n :| 0 <= n < |init| && AccessRevokedAt(init, n, a);
      AccessRevokedBefore(requests, n, a);
    }
    if AccessRevocationWritten(requests, a) {
      var n :| 0 <= n < |requests| && AccessRevokedAt(requests, n, a);
      if n < |init| {
        AccessRevokedBefore(requests, n, a);
      }
    }
  }

  lemma AccessRowNext(t: Tables, r: Request, a: Hash)
    ensures a in t.access ==> a in Serve(t, r).0.access
                              && Serve(t, r).0.access[a] == t.access[a].(revoked := Serve(t, r).0.access[a].revoked)
    ensures a in t.access ==> (Serve(t, r).0.access[a].revoked <==> t.access[a].revoked || RevokesAccess(t, r, a))
    ensures a !in t.access && a in Serve(t, r).0.access ==> !Serve(t, r).0.access[a].revoked
  {
  }

  lemma {:induction false} UnknownAccessNotRevoked(requests: seq<Request>, a: Hash)
    requires a !in Run(requests).access
    ensures !AccessRevocationWritten(requests, a)
  {
    if requests != [] {
      var n := |requests| - 1;
      AccessRowNext(Run(requests[..n]), requests[n], a);
      UnknownAccessNotRevoked(requests[..n], a);
      AccessRevocationNext(requests, a);
    }
  }

  /** An access token is revoked exactly if a logout or a use of its refresh token got that written. */
  lemma {:induction false} AccessRevokedIff(requests: seq<Request>, a: Hash)
    requires a in Run(requests).access
    ensures Run(requests).access[a].revoked <==> AccessRevocationWritten(requests, a)
  {
    var n := |requests| - 1;
    var t := Run(requests[..n]);
    AccessRevocationNext(requests, a);
    AccessRowNext(t, requests[n], a);
    if a in t.access {
      AccessRevokedIff(requests[..n], a);
    } else {
      UnknownAccessNotRevoked(requests[..n], a);
    }
  }

  /** Every refresh token is linked to an access token, and no two to the same. */
  ghost predicate Linked(t: Tables) {
    && (forall r :: r in t.refresh ==> t.refresh[r].access in t.access)
    && (forall r, q :: r in t.refresh && q in t.refresh && t.refresh[r].access == t.refresh[q].access ==> r == q)
  }

  lemma RevokingKeepsLinks(t: Tables, r: Request)
    requires Linked(t) && r.Refresh? && Uses(t, r, r.token)
    ensures Linked(Revoked(t, r))
  {
  }

  lemma IssueKeepsLinks(t: Tables, admin: string, newAccess: Hash, newRefresh: Hash, now: nat, faults: Faults)
    requires Linked(t)
    ensures Linked(Issue(t, admin, newAccess, newRefresh, now, faults).0)
  {
  }

  lemma ServeKeepsLinks(t: Tables, r: Request)
    requires Linked(t)
    ensures Linked(Serve(t, r).0)
  {
    match r {
      case Login(admin, newAccess, newRefresh, now, faults) =>
        IssueKeepsLinks(t, admin, newAccess, newRefresh, now, faults);
      case Refresh(token, newAccess, newRefresh, now, faults) =>
        if Uses(t, r, token) {
          RevokingKeepsLinks(t, r);
          IssueKeepsLinks(Revoked(t, r), t.refresh[token].admin, newAccess, newRefresh, now, faults);
        }
      case Logout(_, _) =>
    }
  }

  lemma {:induction false} LinksAlwaysHold(requests: seq<Request>)
    ensures Linked(Run(requests))
  {
    if requests != [] {
      LinksAlwaysHold(requests[..|requests| - 1]);
      ServeKeepsLinks(Run(requests[..|requests| - 1]), requests[|requests| - 1]);
    }
  }

  lemma {:induction false} RowsKept(requests: seq<Request>, n: nat, h: Hash)
    requires n <= |requests| && h in Run(requests[..n]).refresh
    ensures var row := Run(requests[..n]).refresh[h];
            h in Run(requests).refresh && Run(requests).refresh[h] == row.(revoked := Run(requests).refresh[h].revoked)
    decreases |requests|
  {
    if n == |requests| {
      assert requests[..n] == requests;
    } else {
      var m := |requests| - 1;
      assert requests[..m][..n] == requests[..n];
      RowsKept(requests[..m], n, h);
      RefreshRowNext(Run(requests[..m]), requests[m], h);
    }
  }

  lemma {:induction false} AccessRowsKept(requests: seq<Request>, n: nat, a: Hash)
    requires n <= |requests| && a in Run(requests[..n]).access
    ensures var row := Run(requests[..n]).access[a];
            a in Run(requests).access && Run(requests).access[a] == row.(revoked := Run(requests).access[a].revoked)
    decreases |requests|
  {
    if n == |requests| {
      assert requests[..n] == requests;
    } else {
      var m := |requests| - 1;
      assert requests[..m][..n] == requests[..n];
      AccessRowsKept(requests[..m], n, a);
      AccessRowNext(Run(requests[..m]), requests[m], a);
    }
  }

  lemma IssuedRows(t: Tables, r: Request)
    requires Serve(t, r).1.Tokens?
    ensures var (t', reply) := Serve(t, r);
            && !r.Logout? && reply.refresh in t'.refresh && reply.access in t'.access
            && t'.refresh[reply.refresh].access == reply.access
            && t'.refresh[reply.refresh].expiresAt == r.now + 604_800
            && t'.access[reply.access].expiresAt == r.now + 3_600
  {
  }

  /**
   Every access token ever handed out is linked from the refresh token handed out with it. It lives an
   hour from then, and the refresh token a week.
   */
  lemma HandedOutIsLinked(requests: seq<Request>, n: nat)
    requires n < |requests| && ReplyTo(requests, n).Tokens?
    ensures var (t, reply, r) := (Run(requests), ReplyTo(requests, n), requests[n]);
            && !r.Logout? && reply.refresh in t.refresh && reply.access in t.access
            && t.refresh[reply.refresh].access == reply.access
            && t.refresh[reply.refresh].expiresAt == r.now + 604_800 && t.access[reply.access].expiresAt == r.now + 3_600
  {
    var reply := ReplyTo(requests, n);
    assert requests[..n + 1][..n] == requests[..n];
    assert Run(requests[..n + 1]) == Serve(Run(requests[..n]), requests[n]).0;
    IssuedRows(Run(requests[..n]), requests[n]);
    RowsKept(requests, n + 1, reply.refresh);
    AccessRowsKept(requests, n + 1, reply.access);
  }

  /** Request `n` is answered with refresh token `h`. */
  predicate IssuesAt(requests: seq<Request>, n: nat, h: Hash)
    requires n < |requests|
  {
    ReplyTo(requests, n).Tokens? && ReplyTo(requests, n).refresh == h
  }

  lemma {:induction false} IssuedIff(requests: seq<Request>, h: Hash)
    ensures h in Run(requests).refresh <==> exists n :: 0 <= n < |requests| && IssuesAt(requests, n, h)
  {
    if requests != [] {
      var m := |requests| - 1;
      IssuedIff(requests[..m], h);
      RefreshKeysNext(Run(requests[..m]), requests[m]);
      forall n | 0 <= n < m
        ensures IssuesAt(requests[..m], n, h) <==> IssuesAt(requests, n, h)
      {
        assert requests[..m][..n] == requests[..n];
      }
      assert IssuesAt(requests, m, h) <==> Serve(Run(requests[..m]), requests[m]).1 == ReplyTo(requests, m)
                                           && ReplyTo(requests, m).Tokens? && ReplyTo(requests, m).refresh == h;
    }
  }

  /** `h` was handed out no more than a week before `now`, and no use of it got its revocation written. */
  ghost predicate Works(requests: seq<Request>, h: Hash, now: nat) {
    && !RevocationWritten(requests, h)
    && exists n :: 0 <= n < |requests| && IssuesAt(requests, n, h) && !requests[n].Logout?
                   && now <= requests[n].now + 604_800
  }

  /**
   When a refresh token works: exactly if some request was answered with it, that is no more than a week
   ago, and no use of it so far got its revocation written. So it works once if that write gets through,
   and until it does otherwise.
   */
  lemma RefreshableIff(requests: seq<Request>, h: Hash, now: nat)
    ensures Refreshable(Run(requests), h, now) <==> Works(requests, h, now)
  {
    IssuedIff(requests, h);
    if h in Run(requests).refresh {
      RevokedIff(requests, h);
    }
    forall n | 0 <= n < |requests| && IssuesAt(requests, n, h)
      ensures !requests[n].Logout? && h in Run(requests).refresh
      ensures Run(requests).refresh[h].expiresAt == requests[n].now + 604_800
    {
      HandedOutIsLinked(requests, n);
    }
  }

  /** A request whose insert of the access token gets through leaves that token, even if the next insert fails. */
  lemma AccessKeysNext(t: Tables, r: Request)
    ensures var inserts := (r.Login? || (r.Refresh? && Uses(t, r, r.token))) && !r.faults.insertAccess;
            Serve(t, r).0.access.Keys == t.access.Keys + (if inserts then {r.newAccess} else {})
  {
  }

  /** And how a refresh is answered. */
  lemma RefreshAnsweredIff(requests: seq<Request>, r: Request)
    requires r.Refresh?
    ensures var (t, reply) := (Run(requests), Serve(Run(requests), r).1);
            var issues := !r.faults.insertAccess && r.newAccess !in t.access
                          && !r.faults.insertRefresh && r.newRefresh !in t.refresh;
            && (reply == Unauthorized <==> !r.faults.find && !Works(requests, r.token, r.now))
            && (reply == Tokens(r.newAccess, r.newRefresh)
                <==> !r.faults.find && Works(requests, r.token, r.now) && issues)
            && (reply == Failed <==> r.faults.find || (Works(requests, r.token, r.now) && !issues))
  {
    RefreshableIff(requests, r.token, r.now);
  }

  lemma ChainNext(requests: seq<Request>, h: Hash)
    requires requests != [] && h in Chains(requests[..|requests| - 1])
    ensures h in Chains(requests) && Chains(requests)[h] == Chains(requests[..|requests| - 1])[h]
  {
    var n := |requests| - 1;
    if ReplyTo(requests, n).Tokens? {
      ReplyIsFresh(Run(requests[..n]), requests[n]);
    }
  }

  lemma {:induction false} ChainKept(requests: seq<Request>, n: nat, h: Hash)
    requires n <= |requests| && h in Chains(requests[..n])
    ensures h in Chains(requests) && Chains(requests)[h] == Chains(requests[..n])[h]
    decreases |requests| - n
  {
    if n == |requests| {
      assert requests[..n] == requests;
    } else {
      var longer := requests[..n + 1];
      assert longer[..|longer| - 1] == requests[..n];
      ChainNext(longer, h);
      ChainKept(requests, n + 1, h);
    }
  }

  // ----- whose the tokens are -----

  /** Refresh token `h` and the access token linked from it belong to `admin`. */
  ghost predicate BelongsTo(t: Tables, h: Hash, admin: string) {
    && h in t.refresh && t.refresh[h].admin == admin
    && t.refresh[h].access in t.access && t.access[t.refresh[h].access].admin == admin
  }

  lemma BelongsNext(t: Tables, r: Request, h: Hash, admin: string)
    requires BelongsTo(t, h, admin)
    ensures BelongsTo(Serve(t, r).0, h, admin)
  {
    RefreshRowNext(t, r, h);
    AccessRowNext(t, r, t.refresh[h].access);
  }

  /** A login's tokens are its admin's; a rotated token is the old one's. */
  lemma IssuedBelongs(t: Tables, r: Request)
    requires Serve(t, r).1.Tokens?
    ensures r.Login? ==> BelongsTo(Serve(t, r).0, Serve(t, r).1.refresh, r.admin)
    ensures r.Refresh? ==> r.token in t.refresh
                           && BelongsTo(Serve(t, r).0, Serve(t, r).1.refresh, t.refresh[r.token].admin)
  {
  }

  /**
   Every refresh token descends from a login, and it and the access token linked from it belong to the
   admin who logged in, however often they have been rotated.
   */
  lemma {:induction false} TokensBelongToLogin(requests: seq<Request>, h: Hash)
    requires h in Chains(requests)
    ensures var c := Chains(requests)[h];
            Started(requests, c) && BelongsTo(Run(requests), h, requests[c].admin)
  {
    var n := |requests| - 1;
    var init, r := requests[..n], requests[n];
    var t := Run(init);
    if h in Chains(init) {
      TokensBelongToLogin(init, h);
      ChainNext(requests, h);
      StartedNext(requests, Chains(init)[h]);
      BelongsNext(t, r, h, requests[Chains(init)[h]].admin);
    } else {
      FreshRefreshRow(t, r, h);
      IssuedBelongs(t, r);
      StartedNext(requests, n);
      if r.Refresh? {
        TokensBelongToLogin(init, r.token);
        StartedNext(requests, Chains(init)[r.token]);
      }
    }
  }

  // ----- how many access tokens are live -----

  /** The access token linked from refresh token `h` is not revoked. */
  ghost predicate AccessLives(t: Tables, h: Hash) {
    h in t.refresh && LiveAccess(t, t.refresh[h].access)
  }

  /** The refresh tokens of chain `c` whose linked access token is not revoked. */
  ghost function LiveAccessInChain(requests: seq<Request>, c: nat): set<Hash> {
    set h | h in Run(requests).refresh && AccessLives(Run(requests), h) && Chains(requests)[h] == c
  }

  /** Request `n` revokes the live access token linked from `h`, a refresh token of chain `c`. */
  ghost predicate EndsAccessOf(requests: seq<Request>, n: nat, c: nat, h: Hash)
    requires n < |requests|
  {
    var t := Run(requests[..n]);
    h in LiveAccessInChain(requests[..n], c) && RevokesAccess(t, requests[n], t.refresh[h].access)
  }

  ghost predicate EndsAccess(requests: seq<Request>, n: nat, c: nat)
    requires n < |requests|
  {
    exists h :: EndsAccessOf(requests, n, c, h)
  }

  /** A request revokes one access token at most, so it ends at most one of a chain's. */
  lemma EndsOneAccess(requests: seq<Request>, n: nat, c: nat, h: Hash, k: Hash)
    requires n < |requests| && EndsAccessOf(requests, n, c, h) && EndsAccessOf(requests, n, c, k)
    ensures h == k
  {
    LinksAlwaysHold(requests[..n]);
  }

  /** How many tokens have been issued to chain `c`. */
  function Issued(requests: seq<Request>, c: nat): nat {
    if requests == [] then 0
    else Issued(requests[..|requests| - 1], c) + (if IssuesTo(requests, |requests| - 1, c) then 1 else 0)
  }

  /** How many requests have revoked a live access token of chain `c`. */
  ghost function Ended(requests: seq<Request>, c: nat): nat {
    if requests == [] then 0
    else Ended(requests[..|requests| - 1], c) + (if EndsAccess(requests, |requests| - 1, c) then 1 else 0)
  }

  /** What one request does to the access token linked from an issued refresh token. */
  lemma AccessLivesNext(t: Tables, r: Request, h: Hash)
    requires Linked(t) && h in t.refresh
    ensures AccessLives(Serve(t, r).0, h) <==> AccessLives(t, h) && !RevokesAccess(t, r, t.refresh[h].access)
  {
    RefreshRowNext(t, r, h);
    AccessRowNext(t, r, t.refresh[h].access);
  }

  /** A refresh token just issued is linked to a live access token. */
  lemma IssuedAccessLives(t: Tables, r: Request)
    requires Serve(t, r).1.Tokens?
    ensures AccessLives(Serve(t, r).0, Serve(t, r).1.refresh)
  {
  }

  lemma AccessInChainNext(requests: seq<Request>, c: nat, h: Hash)
    requires requests != []
    ensures var n := |requests| - 1;
            h in LiveAccessInChain(requests, c)
            <==> || (h in LiveAccessInChain(requests[..n], c) && !EndsAccessOf(requests, n, c, h))
                 || (IssuesTo(requests, n, c) && h == ReplyTo(requests, n).refresh)
  {
    var n := |requests| - 1;
    var t, r := Run(requests[..n]), requests[n];
    if h in t.refresh {
      LinksAlwaysHold(requests[..n]);
      AccessLivesNext(t, r, h);
      RefreshRowNext(t, r, h);
      ChainNext(requests, h);
      if ReplyTo(requests, n).Tokens? {
        ReplyIsFresh(t, r);
      }
    } else {
      FreshRefreshRow(t, r, h);
      if ReplyTo(requests, n).Tokens? {
        IssuedAccessLives(t, r);
      }
    }
  }

  /** The refresh token whose access token request `n` ends, if it ends one of the chain's. */
  ghost function EndedBy(requests: seq<Request>, n: nat, c: nat): set<Hash>
    requires n < |requests|
  {
    set h | h in LiveAccessInChain(requests[..n], c) && EndsAccessOf(requests, n, c, h)
  }

  lemma EndedBySize(requests: seq<Request>, n: nat, c: nat)
    requires n < |requests|
    ensures |EndedBy(requests, n, c)| == if EndsAccess(requests, n, c) then 1 else 0
  {
    if EndsAccess(requests, n, c) {
      var h :| EndsAccessOf(requests, n, c, h);
      forall k | k in EndedBy(requests, n, c)
        ensures k == h
      {
        EndsOneAccess(requests, n, c, h, k);
      }
      assert EndedBy(requests, n, c) == {h};
    } else {
      assert EndedBy(requests, n, c) == {};
    }
  }

  lemma LiveAccessInChainNext(requests: seq<Request>, c: nat)
    requires requests != []
    ensures var n := |requests| - 1;
            var live := LiveAccessInChain(requests[..n], c);
            var kept := live - EndedBy(requests, n, c);
            && EndedBy(requests, n, c) <= live
            && (IssuesTo(requests, n, c) ==> ReplyTo(requests, n).refresh !in live)
            && LiveAccessInChain(requests, c) == if IssuesTo(requests, n, c) then kept + {ReplyTo(requests, n).refresh} else kept
  {
    var n := |requests| - 1;
    if ReplyTo(requests, n).Tokens? {
      ReplyIsFresh(Run(requests[..n]), requests[n]);
    }
    forall h {
      AccessInChainNext(requests, c, h);
    }
  }

  lemma SetSizes(live: set<Hash>, ended: set<Hash>, issued: set<Hash>)
    requires ended <= live && issued !! live
    ensures |(live - ended) + issued| == |live| - |ended| + |issued|
  {
    assert live == (live - ended) + ended;
  }

  /** A chain's live access tokens number those issued to it less those that a request revoked. */
  lemma {:induction false} LiveAccessIsCounted(requests: seq<Request>, c: nat)
    ensures |LiveAccessInChain(requests, c)| == Issued(requests, c) - Ended(requests, c)
  {
    if requests == [] {
      assert LiveAccessInChain(requests, c) == {};
    } else {
      var n := |requests| - 1;
      LiveAccessIsCounted(requests[..n], c);
      LiveAccessInChainNext(requests, c);
      EndedBySize(requests, n, c);
      SetSizes(LiveAccessInChain(requests[..n], c), EndedBy(requests, n, c),
               if IssuesTo(requests, n, c) then {ReplyTo(requests, n).refresh} else {});
    }
  }

  /**
   An access token outlives its refresh token exactly when the refresh token's revocation was written
   and neither a use nor a logout has got its own written.
   */
  lemma LiveAccessHasLiveRefreshIff(requests: seq<Request>, r: Hash)
    requires r in Run(requests).refresh
    ensures (AccessLives(Run(requests), r) ==> LiveRefresh(Run(requests), r))
       <==> (RevocationWritten(requests, r) ==> AccessRevocationWritten(requests, Run(requests).refresh[r].access))
  {
    LinksAlwaysHold(requests);
    AccessRevokedIff(requests, Run(requests).refresh[r].access);
    RevokedIff(requests, r);
  }

  /** Chain `c` has at most one live access token, and it is linked from a live refresh token. */
  ghost predicate OneLivePair(requests: seq<Request>, c: nat) {
    && |LiveAccessInChain(requests, c)| <= 1
    && forall h :: h in LiveAccessInChain(requests, c) ==> LiveRefresh(Run(requests), h)
  }

  /** No refresh token of the chain has been revoked without its access token. */
  ghost predicate RevokedTogether(requests: seq<Request>, c: nat) {
    forall h :: h in Chains(requests) && Chains(requests)[h] == c && RevocationWritten(requests, h)
      ==> AccessRevocationWritten(requests, Run(requests).refresh[h].access)
  }

  /**
   When rotation keeps one access token: a chain has at most one that is not revoked, linked from a
   refresh token that is not revoked, if and only if all but one of the access tokens issued to it
   have been ended, and no refresh token of it was revoked without its access token.
   */
  lemma OneLiveAccessTokenIff(requests: seq<Request>, c: nat)
    ensures OneLivePair(requests, c)
       <==> Issued(requests, c) <= Ended(requests, c) + 1 && RevokedTogether(requests, c)
  {
    LiveAccessIsCounted(requests, c);
    forall h | h in Run(requests).refresh
      ensures (AccessLives(Run(requests), h) ==> LiveRefresh(Run(requests), h))
         <==> (RevocationWritten(requests, h) ==> AccessRevocationWritten(requests, Run(requests).refresh[h].access))
    {
      LiveAccessHasLiveRefreshIff(requests, h);
    }
    assert forall h :: h in Chains(requests) <==> h in Run(requests).refresh;
  }

  // ----- chains that lose no revocation -----

  /** Every use of the chain gets both its revocations written. */
  ghost predicate ChainWritten(requests: seq<Request>, c: nat) {
    RotationsWritten(requests, c)
    && forall n :: 0 <= n < |requests| && UsesChain(requests, n, c) ==> !requests[n].faults.revokeAccess
  }

  /** A use of `r` in a chain whose revocations are all written revokes the access token linked from `r`. */
  lemma UseRevokesAccess(requests: seq<Request>, n: nat, r: Hash)
    requires n < |requests| && UsedAt(requests, n, r) && r in Run(requests).refresh
    requires ChainWritten(requests, Chains(requests)[r])
    ensures AccessRevocationWritten(requests, Run(requests).refresh[r].access)
  {
    RowsKept(requests, n, r);
    ChainKept(requests, n, r);
    LinksAlwaysHold(requests[..n]);
    assert UsesChain(requests, n, Chains(requests)[r]);
    assert AccessRevokedAt(requests, n, Run(requests).refresh[r].access);
  }

  /** In a chain whose revocations are all written, a live access token is linked from a live refresh token. */
  lemma LiveAccessHasLiveRefresh(requests: seq<Request>, r: Hash)
    requires r in Run(requests).refresh && ChainWritten(requests, Chains(requests)[r])
    requires LiveAccess(Run(requests), Run(requests).refresh[r].access)
    ensures LiveRefresh(Run(requests), r)
  {
    LiveAccessHasLiveRefreshIff(requests, r);
    if RevocationWritten(requests, r) {
      var n :| 0 <= n < |requests| && UsedAt(requests, n, r) && !requests[n].faults.revokeRefresh;
      UseRevokesAccess(requests, n, r);
    }
  }

  /**
   In a chain whose revocations are all written there is at most one access token that is not revoked,
   and it is the one linked from the chain's one live refresh token.
   */
  lemma OneLiveAccessToken(requests: seq<Request>, r: Hash, q: Hash)
    requires r in Run(requests).refresh && q in Run(requests).refresh
    requires Chains(requests)[r] == Chains(requests)[q] && ChainWritten(requests, Chains(requests)[r])
    requires LiveAccess(Run(requests), Run(requests).refresh[r].access)
    ensures LiveRefresh(Run(requests), r)
    ensures LiveAccess(Run(requests), Run(requests).refresh[q].access) || LiveRefresh(Run(requests), q) ==> r == q
  {
    LiveAccessHasLiveRefresh(requests, r);
    if LiveAccess(Run(requests), Run(requests).refresh[q].access) {
      LiveAccessHasLiveRefresh(requests, q);
    }
    if LiveRefresh(Run(requests), q) {
      OneLiveRefreshToken(requests, r, q);
    }
  }

  /** So such a chain keeps to the exact condition. */
  lemma WrittenChainHasOnePair(requests: seq<Request>, c: nat)
    requires ChainWritten(requests, c)
    ensures OneLivePair(requests, c)
    ensures Issued(requests, c) <= Ended(requests, c) + 1 && RevokedTogether(requests, c)
  {
    var live := LiveAccessInChain(requests, c);
    forall r, q | r in live && q in live
      ensures LiveRefresh(Run(requests), r) && r == q
    {
      OneLiveAccessToken(requests, r, q);
    }
    if live != {} {
      var r :| r in live;
      assert live == {r};
    }
    OneLiveAccessTokenIff(requests, c);
  }

  /** One lost access revocation: the old access token stays live beside its successor. */
  lemma LostAccessRevocationLeavesTwo()
    ensures var requests := [Login("admin", "a0", "r0", 0, NO_FAULT),
                             Refresh("r0", "a1", "r1", 1, NO_FAULT.(revokeAccess := true))];
            ReplyTo(requests, 1) == Tokens("a1", "r1") && LiveAccess(Run(requests), "a0") && LiveAccess(Run(requests), "a1")
  {
    var login := Login("admin", "a0", "r0", 0, NO_FAULT);
    var requests := [login, Refresh("r0", "a1", "r1", 1, NO_FAULT.(revokeAccess := true))];
    assert requests[..1][..0] == [];
    assert Run(requests[..1]) == Serve(EMPTY, login).0;
  }

  /**
   Logging out ends the access token, if that is written, but not the session: whatever refresh token
   worked before still works. The answer is the same either way.
   */
  lemma LogoutLeavesRefreshToken(t: Tables, access: Hash, faults: Faults, token: Hash, now: nat)
    ensures var (out, reply) := Serve(t, Logout(access, faults));
            && reply == LoggedOut
            && (LiveAccess(out, access) <==> LiveAccess(t, access) && faults.revokeAccess)
            && (Refreshable(out, token, now) <==> Refreshable(t, token, now))
  {
  }

  // ----- the repository and its handlers -----

  class Sessions {
    var access: map<Hash, AccessRow>
    var refresh: map<Hash, RefreshRow>

    function Contents(): Tables
      reads this
    {
      Tables(access, refresh)
    }

    constructor ()
      ensures Contents() == EMPTY
    {
      access, refresh := map[], map[];
    }

    method CreateAccessToken(h: Hash, admin: string, expiresAt: int, fault: bool) returns (ok: bool)
      modifies this`access
      ensures ok <==> h !in old(access) && !fault
      ensures access == if ok then old(access)[h := AccessRow(admin, expiresAt, false)] else old(access)
    {
      ok := h !in access && !fault;
      if ok {
        access := access[h := AccessRow(admin, expiresAt, false)];
      }
    }

    method CreateRefreshToken(h: Hash, admin: string, accessHash: Hash, expiresAt: int, fault: bool) returns (ok: bool)
      modifies this`refresh
      ensures ok <==> h !in old(refresh) && !fault
      ensures refresh == if ok then old(refresh)[h := RefreshRow(admin, accessHash, expiresAt, false)] else old(refresh)
    {
      ok := h !in refresh && !fault;
      if ok {
        refresh := refresh[h := RefreshRow(admin, accessHash, expiresAt, false)];
      }
    }

    method RevokeAccessToken(h: Hash, fault: bool) returns (ok: bool)
      modifies this`access
      ensures Contents() == RevokeAccess(old(Contents()), h, fault) && ok == !fault
    {
      if fault {
        return false;
      }
      if h in access {
        access := access[h := access[h].(revoked := true)];
      }
      return true;
    }

    method RevokeRefreshToken(h: Hash, fault: bool) returns (ok: bool)
      modifies this`refresh
      ensures Contents() == RevokeRefresh(old(Contents()), h, fault) && ok == !fault
    {
      if fault {
        return false;
      }
      if h in refresh {
        refresh := refresh[h := refresh[h].(revoked := true)];
      }
      return true;
    }

    /** A login whose credentials have been verified. */
    method HandleLogin(admin: string, newAccess: Hash, newRefresh: Hash, now: nat, faults: Faults) returns (reply: Reply)
      modifies this
      ensures (Contents(), reply) == Serve(old(Contents()), Login(admin, newAccess, newRefresh, now, faults))
    {
      var ok := CreateAccessToken(newAccess, admin, now + ACCESS_TOKEN_TTL_SECS, faults.insertAccess);
      if !ok {
        return Failed;
      }
      ok := CreateRefreshToken(newRefresh, admin, newAccess, now + REFRESH_TOKEN_TTL_SECS, faults.insertRefresh);
      if !ok {
        return Failed;
      }
      return Tokens(newAccess, newRefresh);
    }

    method HandleRefresh(token: Hash, newAccess: Hash, newRefresh: Hash, now: nat, faults: Faults) returns (reply: Reply)
      modifies this
      ensures (Contents(), reply) == Serve(old(Contents()), Refresh(token, newAccess, newRefresh, now, faults))
    {
      if faults.find {
        return Failed;
      }
      if token !in refresh {
        return Unauthorized;
      }
      var row := refresh[token];
      if row.revoked || row.expiresAt < now {
        return Unauthorized;
      }
      // Neither result is looked at.
      var _ := RevokeRefreshToken(token, faults.revokeRefresh);
      var _ := RevokeAccessToken(row.access, faults.revokeAccess);
      var ok := CreateAccessToken(newAccess, row.admin, now + ACCESS_TOKEN_TTL_SECS, faults.insertAccess);
      if !ok {
        return Failed;
      }
      ok := CreateRefreshToken(newRefresh, row.admin, newAccess, now + REFRESH_TOKEN_TTL_SECS, faults.insertRefresh);
      if !ok {
        return Failed;
      }
      return Tokens(newAccess, newRefresh);
    }

    method HandleLogout(token: Hash, faults: Faults) returns (reply: Reply)
      modifies this
      ensures (Contents(), reply) == Serve(old(Contents()), Logout(token, faults))
    {
      var _ := RevokeAccessToken(token, faults.revokeAccess);
      return LoggedOut;
    }
  }
}
