/**
 Consent between providers and users: the authorization rows, the endpoint
 guards that move them, and the subscriptions providers own.
 */
module ProviderAuthorization {
  import opened Collections
  import opened Subscriptions

  type Provider = nat
  type User = nat

  datatype Status = Pending | Approved | Revoked

  datatype Sub = Sub(token: nat, user: User, provider: Option<Provider>)

  /** `subs` lists the newest subscription first. */
  datatype State = State(users: set<User>, auths: map<(Provider, User), Status>, subs: seq<Sub>)

  datatype Error = NotFound | InvalidStatus | TooManyProviders | NotAuthorized | BadInvite

  datatype Reply = Reply(state: State, error: Option<Error>)

  function StatusOf(s: State, p: Provider, u: User): Option<Status> {
    if (p, u) in s.auths then Some(s.auths[(p, u)]) else None
  }

  function ApprovedProviders(s: State, u: User): set<Provider> {
    set k | k in s.auths && k.1 == u && s.auths[k] == Approved :: k.0
  }

  predicate OwnedBy(b: Sub, p: Provider, u: User) {
    b.provider == Some(p) && b.user == u
  }

  function WithStatus(s: State, p: Provider, u: User, status: Status): State {
    s.(auths := s.auths[(p, u) := status])
  }

  function NotOwnedBy(p: Provider, u: User): Sub -> bool {
    (b: Sub) => !OwnedBy(b, p, u)
  }

  function VisibleTo(s: State, u: User): Sub -> bool {
    (b: Sub) => b.user == u && (b.provider.None? || b.provider.value in ApprovedProviders(s, u))
  }

  /** What a user sees when listing subscriptions. */
  function Listing(s: State, u: User): seq<Sub> {
    Select(s.subs, VisibleTo(s, u))
  }

  predicate HasSubscriptions(s: State, p: Provider, u: User) {
    exists i :: 0 <= i < |s.subs| && OwnedBy(s.subs[i], p, u)
  }

  // ------------------------------------------------------------------
  // Service operations
  // ------------------------------------------------------------------

  function Grant(max: nat, s: State, p: Provider, u: User): Reply {
    if StatusOf(s, p, u) == Some(Approved) then Reply(s, None)
    else if |ApprovedProviders(s, u)| >= max then Reply(s, Some(TooManyProviders))
    else Reply(WithStatus(s, p, u, Approved), None)
  }

  function Revoke(s: State, p: Provider, u: User): Reply {
    if StatusOf(s, p, u).None? then Reply(s, Some(NotFound)) else Reply(WithStatus(s, p, u, Revoked), None)
  }

  function DeleteAuthorization(s: State, p: Provider, u: User): Reply {
    if StatusOf(s, p, u).None? then Reply(s, Some(NotFound))
    else Reply(s.(auths := s.auths - {(p, u)}, subs := Select(s.subs, NotOwnedBy(p, u))), None)
  }

  /** With subscriptions to keep, a rejected request is kept as revoked; otherwise it is deleted. */
  function Discard(s: State, p: Provider, u: User): Reply {
    if HasSubscriptions(s, p, u) then Revoke(s, p, u) else DeleteAuthorization(s, p, u)
  }

  // ------------------------------------------------------------------
  // Endpoints
  // ------------------------------------------------------------------

  datatype Call =
    | UserApproves(p: Provider, u: User)
    | UserRejects(p: Provider, u: User)
    | UserRevokes(p: Provider, u: User)
    | ProviderConnects(p: Provider, u: User)
    | ProviderRevokes(p: Provider, u: User)
    | ProviderDeletes(p: Provider, u: User)
    | AdminProcesses(p: Provider, u: User, invited: bool, genuine: bool)
    | AdminApproves(p: Provider, u: User)
    | AdminRejects(p: Provider, u: User)
    | UserSubscribes(u: User, token: nat)
    | ProviderSubscribes(p: Provider, u: User, token: nat)
    | SubscriptionDeleted(token: nat)

  function Answer(max: nat, s: State, c: Call): Reply {
    match c
    case UserApproves(p, u) =>
      (match StatusOf(s, p, u)
       case None => Reply(s, Some(NotFound))
       case Some(Approved) => Reply(s, None)
       case Some(Revoked) => Reply(s, Some(InvalidStatus))
       case Some(Pending) => Grant(max, s, p, u))
    case UserRejects(p, u) =>
      (match StatusOf(s, p, u)
       case None => Reply(s, Some(NotFound))
       case Some(status) => if status != Pending then Reply(s, Some(InvalidStatus)) else Discard(s, p, u))
    case UserRevokes(p, u) => Revoke(s, p, u)
    case ProviderConnects(p, u) =>
      if u !in s.users then Reply(s, None)
      else
        (match StatusOf(s, p, u)
         case None => Reply(WithStatus(s, p, u, Pending), None)
         case Some(status) => if status == Revoked then Reply(WithStatus(s, p, u, Pending), None) else Reply(s, None))
    case ProviderRevokes(p, u) =>
      if u !in s.users then Reply(s, Some(NotFound))
      else if StatusOf(s, p, u).None? then Reply(s, Some(NotAuthorized)) else Revoke(s, p, u)
    case ProviderDeletes(p, u) => if u !in s.users then Reply(s, Some(NotFound)) else DeleteAuthorization(s, p, u)
    case AdminProcesses(p, u, invited, genuine) =>
      var known := s.(users := s.users + {u});
      if StatusOf(s, p, u).Some? || !invited then Reply(known, None)
      else if !genuine then Reply(known, Some(BadInvite))
      else Reply(WithStatus(known, p, u, Pending), None)
    case AdminApproves(p, u) =>
      if u !in s.users || StatusOf(s, p, u).None? then Reply(s, Some(NotFound))
      else if StatusOf(s, p, u) == Some(Pending) then Grant(max, s, p, u) else Reply(s, None)
    case AdminRejects(p, u) =>
      if u !in s.users || StatusOf(s, p, u).None? then Reply(s, Some(NotFound)) else Discard(s, p, u)
    case UserSubscribes(u, token) => Reply(s.(subs := [Sub(token, u, None)] + s.subs), None)
    case ProviderSubscribes(p, u, token) =>
      if StatusOf(s, p, u) != Some(Approved) then Reply(s, Some(NotAuthorized))
      else Reply(s.(subs := [Sub(token, u, Some(p))] + s.subs), None)
    case SubscriptionDeleted(token) => Reply(s.(subs := Select(s.subs, (b: Sub) => b.token != token)), None)
  }

  class Service {
    const maxProviders: nat
    var users: set<User>
    var auths: map<(Provider, User), Status>
    var subs: seq<Sub>

    constructor (maxProviders: nat)
      ensures this.maxProviders == maxProviders && Current() == START
    {
      this.maxProviders := maxProviders;
      users, auths, subs := {}, map[], [];
    }

    function Current(): State
      reads this
    {
      State(users, auths, subs)
    }

    method SetStatus(p: Provider, u: User, status: Status)
      modifies `auths
      ensures Current() == WithStatus(old(Current()), p, u, status)
    {
      auths := auths[(p, u) := status];
    }

    method GrantAccess(p: Provider, u: User) returns (error: Option<Error>)
      modifies `auths
      ensures Reply(Current(), error) == Grant(maxProviders, old(Current()), p, u)
    {
      var authorization := StatusOf(Current(), p, u);
      if authorization.None? || authorization.value != Approved {
        var approved := ApprovedProviders(Current(), u);
        if |approved| >= maxProviders {
          return Some(TooManyProviders);
        }
      }
      if authorization.Some? {
        if authorization.value != Approved {
          SetStatus(p, u, Approved);
        }
        return None;
      }
      auths := auths[(p, u) := Approved];
      return None;
    }

    method RevokeAccess(p: Provider, u: User) returns (error: Option<Error>)
      modifies `auths
      ensures Reply(Current(), error) == Revoke(old(Current()), p, u)
    {
      if (p, u) !in auths {
        return Some(NotFound);
      }
      if auths[(p, u)] == Revoked {
        assert auths == auths[(p, u) := Revoked];
        return None;
      }
      SetStatus(p, u, Revoked);
      return None;
    }

    method DeleteAccess(p: Provider, u: User) returns (error: Option<Error>)
      modifies `auths, `subs
      ensures Reply(Current(), error) == DeleteAuthorization(old(Current()), p, u)
    {
      if (p, u) !in auths {
        return Some(NotFound);
      }
      subs := Select(subs, NotOwnedBy(p, u));
      auths := auths - {(p, u)};
      return None;
    }

    method DiscardRequest(p: Provider, u: User) returns (error: Option<Error>)
      modifies `auths, `subs
      ensures Reply(Current(), error) == Discard(old(Current()), p, u)
    {
      if HasSubscriptions(Current(), p, u) {
        error := RevokeAccess(p, u);
      } else {
        error := DeleteAccess(p, u);
      }
    }

    method ApproveConnection(p: Provider, u: User) returns (error: Option<Error>)
      modifies `auths
      ensures Reply(Current(), error) == Answer(maxProviders, old(Current()), UserApproves(p, u))
    {
      var authorization := StatusOf(Current(), p, u);
      if authorization.None? {
        return Some(NotFound);
      }
      if authorization.value == Approved {
        return None;
      } else if authorization.value != Pending {
        return Some(InvalidStatus);
      }
      error := GrantAccess(p, u);
    }

    method RejectConnection(p: Provider, u: User) returns (error: Option<Error>)
      modifies `auths, `subs
      ensures Reply(Current(), error) == Answer(maxProviders, old(Current()), UserRejects(p, u))
    {
      var authorization := StatusOf(Current(), p, u);
      if authorization.None? {
        return Some(NotFound);
      }
      if authorization.value != Pending {
        return Some(InvalidStatus);
      }
      error := DiscardRequest(p, u);
    }

    method CreateConnection(p: Provider, u: User)
      modifies `auths
      ensures Reply(Current(), None) == Answer(maxProviders, old(Current()), ProviderConnects(p, u))
    {
      if u !in users {
        return;
      }
      if (p, u) !in auths || auths[(p, u)] == Revoked {
        SetStatus(p, u, Pending);
      }
    }

    method ProcessRequest(p: Provider, u: User, invited: bool, genuine: bool) returns (error: Option<Error>)
      modifies `users, `auths
      ensures Reply(Current(), error) == Answer(maxProviders, old(Current()), AdminProcesses(p, u, invited, genuine))
    {
      if u !in users {
        users := users + {u};
      }
      assert users == old(users) + {u};
      if (p, u) !in auths && invited {
        if !genuine {
          return Some(BadInvite);
        }
        SetStatus(p, u, Pending);
      }
      return None;
    }
  }

  const START := State({}, map[], [])

  // ------------------------------------------------------------------
  // Invariants over all runs
  // ------------------------------------------------------------------

  function Run(max: nat, calls: seq<Call>): State {
    if calls == [] then START else Answer(max, Run(max, calls[..|calls| - 1]), calls[|calls| - 1]).state
  }

  ghost predicate WithinQuota(max: nat, s: State) {
    forall u :: |ApprovedProviders(s, u)| <= max
  }

  /** Every provider-owned subscription has an authorization row. */
  ghost predicate SubsAuthorized(s: State) {
    forall b :: b in s.subs && b.provider.Some? ==> (b.provider.value, b.user) in s.auths
  }

  lemma GrantKeepsQuota(max: nat, s: State, p: Provider, u: User)
    requires WithinQuota(max, s)
    ensures WithinQuota(max, Grant(max, s, p, u).state)
  {
    var t := Grant(max, s, p, u).state;
    forall v
      ensures |ApprovedProviders(t, v)| <= max
    {
      if t != s && v == u {
        assert ApprovedProviders(t, v) == ApprovedProviders(s, v) + {p} by {
          forall q | q in ApprovedProviders(s, v) + {p}
            ensures q in ApprovedProviders(t, v)
          {
            assert (q, u) in t.auths && t.auths[(q, u)] == Approved;
          }
        }
      } else if t != s {
        assert ApprovedProviders(t, v) <= ApprovedProviders(s, v);
        SubsetSize(ApprovedProviders(t, v), ApprovedProviders(s, v));
      }
    }
  }

  /** No row becomes approved from `s` to `t`. */
  ghost predicate NothingApproved(s: State, t: State) {
    forall k :: k in t.auths && t.auths[k] == Approved ==> k in s.auths && s.auths[k] == Approved
  }

  lemma NothingApprovedKeepsQuota(max: nat, s: State, t: State)
    requires WithinQuota(max, s) && NothingApproved(s, t)
    ensures WithinQuota(max, t)
  {
    forall u
      ensures |ApprovedProviders(t, u)| <= max
    {
      SubsetSize(ApprovedProviders(t, u), ApprovedProviders(s, u));
    }
  }

  /** Only granting approves, and the endpoints grant only pending requests. */
  lemma CallsApproveOnlyPending(max: nat, s: State, c: Call)
    ensures var t := Answer(max, s, c).state;
            || NothingApproved(s, t)
            || ((c.UserApproves? || c.AdminApproves?) && StatusOf(s, c.p, c.u) == Some(Pending)
                && t == Grant(max, s, c.p, c.u).state)
  {
  }

  lemma CallKeepsSubsAuthorized(max: nat, s: State, c: Call)
    requires SubsAuthorized(s)
    ensures SubsAuthorized(Answer(max, s, c).state)
  {
    match c
    case SubscriptionDeleted(token) => SelectElements(s.subs, (b: Sub) => b.token != token);
    case ProviderDeletes(p, u) => SelectElements(s.subs, NotOwnedBy(p, u));
    case UserRejects(p, u) => SelectElements(s.subs, NotOwnedBy(p, u));
    case AdminRejects(p, u) => SelectElements(s.subs, NotOwnedBy(p, u));
    case _ =>
  }

  lemma {:induction false} RunKeepsQuotaAndOwnership(max: nat, calls: seq<Call>)
    ensures WithinQuota(max, Run(max, calls)) && SubsAuthorized(Run(max, calls))
  {
    if calls == [] {
      assert forall u :: ApprovedProviders(START, u) == {};
    } else {
      var s, c := Run(max, calls[..|calls| - 1]), calls[|calls| - 1];
      RunKeepsQuotaAndOwnership(max, calls[..|calls| - 1]);
      CallsApproveOnlyPending(max, s, c);
      CallKeepsSubsAuthorized(max, s, c);
      var t := Answer(max, s, c).state;
      if NothingApproved(s, t) {
        NothingApprovedKeepsQuota(max, s, t);
      } else {
        GrantKeepsQuota(max, s, c.p, c.u);
      }
    }
  }

  // ------------------------------------------------------------------
  // Histories
  // ------------------------------------------------------------------

  lemma NewlyApprovedWasPending(max: nat, s: State, c: Call, p: Provider, u: User)
    requires StatusOf(s, p, u) != Some(Approved) && StatusOf(Answer(max, s, c).state, p, u) == Some(Approved)
    ensures StatusOf(s, p, u) == Some(Pending)
  {
    CallsApproveOnlyPending(max, s, c);
  }

  lemma RunOfPrefix(max: nat, calls: seq<Call>, i: nat)
    requires 0 < i <= |calls|
    ensures Run(max, calls[..i]) == Answer(max, Run(max, calls[..i - 1]), calls[i - 1]).state
  {
    assert calls[..i][..i - 1] == calls[..i - 1];
  }

  /**
   A pair that was not approved after `i` calls and is approved after `j` calls was
   pending in between. In particular a revoked pair is approved again only
   after it has been pending.
   */
  lemma {:induction false} ApprovalPassesThroughPending(max: nat, calls: seq<Call>, i: nat, j: nat, p: Provider,
                                                        u: User) returns (k: nat)
    requires i <= j <= |calls|
    requires StatusOf(Run(max, calls[..i]), p, u) != Some(Approved)
    requires StatusOf(Run(max, calls[..j]), p, u) == Some(Approved)
    ensures i <= k < j && StatusOf(Run(max, calls[..k]), p, u) == Some(Pending)
    decreases j
  {
    k := j - 1;
    if StatusOf(Run(max, calls[..k]), p, u) == Some(Approved) {
      k := ApprovalPassesThroughPending(max, calls, i, k, p, u);
    } else {
      RunOfPrefix(max, calls, j);
      NewlyApprovedWasPending(max, Run(max, calls[..k]), calls[k], p, u);
    }
  }

  /**
   Revoking a connection, asking for it again and approving it restores the
   state exactly, listing included; while revoked, the provider's subscriptions
   are hidden but kept.
   */
  lemma RevokeAndReconnectRestores(max: nat, s: State, p: Provider, u: User)
    requires WithinQuota(max, s) && u in s.users && StatusOf(s, p, u) == Some(Approved)
    ensures var revoked := Answer(max, s, UserRevokes(p, u)).state;
            var pending := Answer(max, revoked, ProviderConnects(p, u)).state;
            && revoked.subs == s.subs
            && (forall b :: b in Listing(revoked, u) <==> b in Listing(s, u) && b.provider != Some(p))
            && Answer(max, pending, UserApproves(p, u)) == Reply(s, None)
            && Listing(Answer(max, pending, UserApproves(p, u)).state, u) == Listing(s, u)
  {
    var revoked := Answer(max, s, UserRevokes(p, u)).state;
    var pending := Answer(max, revoked, ProviderConnects(p, u)).state;
    var left := ApprovedProviders(s, u) - {p};
    assert (p, u) in s.auths && s.auths[(p, u)] == Approved;
    assert p in ApprovedProviders(s, u);
    assert |left| == |ApprovedProviders(s, u)| - 1;
    assert StillApproved(s, revoked, p, u) && StillApproved(s, pending, p, u);
    OthersStayApproved(s, revoked, p, u);
    OthersStayApproved(s, pending, p, u);
    assert WithStatus(pending, p, u, Approved).auths == s.auths;
    SelectElements(s.subs, VisibleTo(s, u));
    SelectElements(s.subs, VisibleTo(revoked, u));
  }

  /** `t` has the rows of `s`, with the one of `p` and `u` not approved. */
  ghost predicate StillApproved(s: State, t: State, p: Provider, u: User) {
    && t.auths.Keys == s.auths.Keys
    && forall k :: k in s.auths ==> if k == (p, u) then t.auths[k] != Approved else t.auths[k] == s.auths[k]
  }

  lemma OthersStayApproved(s: State, t: State, p: Provider, u: User)
    requires StillApproved(s, t, p, u)
    ensures ApprovedProviders(t, u) == ApprovedProviders(s, u) - {p}
  {
    forall q
      ensures q in ApprovedProviders(t, u) <==> q in ApprovedProviders(s, u) - {p}
    {
      assert q in ApprovedProviders(t, u) <==> (q, u) in t.auths && t.auths[(q, u)] == Approved;
      assert q in ApprovedProviders(s, u) <==> (q, u) in s.auths && s.auths[(q, u)] == Approved;
    }
  }
}
