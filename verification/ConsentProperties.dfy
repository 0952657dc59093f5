/**
 What each endpoint call does to consent and to the subscriptions that depend on
 it, and how subscriptions come and go over whole runs.
 */
module ConsentProperties {
  import opened Collections
  import opened Subscriptions
  import opened ProviderAuthorization

  /** Rejection by the user, of a pending request, or by an administrator, of any. */
  predicate Rejects(s: State, c: Call, p: Provider, u: User) {
    || (c == UserRejects(p, u) && StatusOf(s, p, u) == Some(Pending))
    || (c == AdminRejects(p, u) && u in s.users && StatusOf(s, p, u).Some?)
  }

  ghost predicate OwnsSome(s: State, p: Provider, u: User) {
    exists b :: b in s.subs && b.provider == Some(p) && b.user == u
  }

  /** All rows but that of `p` and `u` are as before. */
  ghost predicate OthersUntouched(s: State, t: State, p: Provider, u: User) {
    forall q, v :: q != p || v != u ==> StatusOf(t, q, v) == StatusOf(s, q, v)
  }

  lemma NoneOwned(s: State, p: Provider, u: User)
    requires !OwnsSome(s, p, u)
    ensures Select(s.subs, NotOwnedBy(p, u)) == s.subs && !HasSubscriptions(s, p, u)
  {
    forall b | b in s.subs
      ensures NotOwnedBy(p, u)(b)
    {
    }
    SelectAll(s.subs, NotOwnedBy(p, u));
    forall i | 0 <= i < |s.subs|
      ensures !OwnedBy(s.subs[i], p, u)
    {
      assert s.subs[i] in s.subs;
    }
  }

  /**
   A rejection removes no subscription. The row is kept as revoked exactly when
   the provider owns a subscription for the user, and is gone otherwise.
   */
  lemma RejectionKeepsSubscriptions(max: nat, s: State, c: Call, p: Provider, u: User)
    requires Rejects(s, c, p, u)
    ensures var r := Answer(max, s, c);
            && r.error == None && r.state.subs == s.subs && r.state.users == s.users
            && StatusOf(r.state, p, u) == (if OwnsSome(s, p, u) then Some(Revoked) else None)
            && OthersUntouched(s, r.state, p, u)
  {
    if OwnsSome(s, p, u) {
      var b :| b in s.subs && b.provider == Some(p) && b.user == u;
      var i :| 0 <= i < |s.subs| && s.subs[i] == b;
      assert OwnedBy(s.subs[i], p, u);
    } else {
      NoneOwned(s, p, u);
    }
  }

  // ------------------------------------------------------------------
  // Rows
  // ------------------------------------------------------------------

  predicate Concerns(c: Call, p: Provider, u: User) {
    match c
    case UserSubscribes(_, _) => false
    case ProviderSubscribes(_, _, _) => false
    case SubscriptionDeleted(_) => false
    case _ => c.p == p && c.u == u
  }

  /** A call changes no row but the one it is about. */
  lemma CallsTouchOnlyTheirPair(max: nat, s: State, c: Call, p: Provider, u: User)
    requires !Concerns(c, p, u)
    ensures StatusOf(Answer(max, s, c).state, p, u) == StatusOf(s, p, u)
  {
  }

  /** A row appears, as pending, only for a known user's connection or a genuine invitation; and then it does. */
  lemma RowsAppearExactlyWhen(max: nat, s: State, c: Call, p: Provider, u: User)
    requires StatusOf(s, p, u) == None
    ensures var status := StatusOf(Answer(max, s, c).state, p, u);
            && (status == None || status == Some(Pending))
            && (status == Some(Pending) <==>
                (c == ProviderConnects(p, u) && u in s.users) || c == AdminProcesses(p, u, true, true))
  {
  }

  /** A row goes exactly by the provider's deletion, or a rejection when no subscription depends on it. */
  lemma RowsGoExactlyWhen(max: nat, s: State, c: Call, p: Provider, u: User)
    requires StatusOf(s, p, u).Some?
    ensures StatusOf(Answer(max, s, c).state, p, u) == None <==>
            || (c == ProviderDeletes(p, u) && u in s.users)
            || (Rejects(s, c, p, u) && !OwnsSome(s, p, u))
  {
    if Rejects(s, c, p, u) {
      RejectionKeepsSubscriptions(max, s, c, p, u);
    }
  }

  /** A revoked row becomes pending exactly when the provider connects again; no other row does. */
  lemma RowsReturnExactlyWhen(max: nat, s: State, c: Call, p: Provider, u: User)
    requires StatusOf(s, p, u).Some? && StatusOf(s, p, u) != Some(Pending)
    ensures StatusOf(Answer(max, s, c).state, p, u) == Some(Pending) <==>
            c == ProviderConnects(p, u) && u in s.users && StatusOf(s, p, u) == Some(Revoked)
  {
  }

  /** A pending row is approved exactly when user or administrator approve and there is room for one more. */
  lemma RowsAreApprovedExactlyWhen(max: nat, s: State, c: Call, p: Provider, u: User)
    requires StatusOf(s, p, u).Some? && StatusOf(s, p, u) != Some(Approved)
    ensures StatusOf(Answer(max, s, c).state, p, u) == Some(Approved) <==>
            && StatusOf(s, p, u) == Some(Pending)
            && (c == UserApproves(p, u) || (c == AdminApproves(p, u) && u in s.users))
            && |ApprovedProviders(s, u)| < max
  {
  }

  /** A row becomes revoked exactly by a revocation, or a rejection when some subscription depends on it. */
  lemma RowsAreRevokedExactlyWhen(max: nat, s: State, c: Call, p: Provider, u: User)
    requires StatusOf(s, p, u).Some? && StatusOf(s, p, u) != Some(Revoked)
    ensures StatusOf(Answer(max, s, c).state, p, u) == Some(Revoked) <==>
            || c == UserRevokes(p, u) || (c == ProviderRevokes(p, u) && u in s.users)
            || (Rejects(s, c, p, u) && OwnsSome(s, p, u))
  {
    if Rejects(s, c, p, u) {
      RejectionKeepsSubscriptions(max, s, c, p, u);
    }
  }

  /** Accounts are only added, and only by an administrator's processing of a request. */
  lemma AccountsAppearExactlyWhen(max: nat, s: State, c: Call, u: User)
    ensures u in Answer(max, s, c).state.users <==> u in s.users || (c.AdminProcesses? && c.u == u)
  {
  }

  /** Access is granted exactly when it was before or the quota has room; a refusal changes nothing. */
  lemma AccessIsGrantedExactlyWhen(max: nat, s: State, p: Provider, u: User)
    ensures var r := Grant(max, s, p, u);
            && (r.error.None? <==> StatusOf(s, p, u) == Some(Approved) || |ApprovedProviders(s, u)| < max)
            && (r.error.Some? ==> r == Reply(s, Some(TooManyProviders)))
            && (r.error.None? ==>
                  && StatusOf(r.state, p, u) == Some(Approved) && OthersUntouched(s, r.state, p, u)
                  && r.state.subs == s.subs && r.state.users == s.users)
  {
  }

  /** Access is revoked and deleted exactly when there is a row; deletion takes the provider's subscriptions along. */
  lemma AccessIsWithdrawnExactlyWhen(s: State, p: Provider, u: User)
    ensures var r := Revoke(s, p, u);
            && (r.error.None? <==> StatusOf(s, p, u).Some?) && r.state.subs == s.subs && r.state.users == s.users
            && StatusOf(r.state, p, u) == (if r.error.None? then Some(Revoked) else None)
            && OthersUntouched(s, r.state, p, u)
    ensures var r := DeleteAuthorization(s, p, u);
            && (r.error.None? <==> StatusOf(s, p, u).Some?) && r.state.users == s.users
            && StatusOf(r.state, p, u) == None && OthersUntouched(s, r.state, p, u)
            && forall b :: b in r.state.subs <==>
                           b in s.subs && !(r.error.None? && b.provider == Some(p) && b.user == u)
  {
    SelectElements(s.subs, NotOwnedBy(p, u));
  }

  /** `max` is the most approvals a user can have: the quota counts approved rows and nothing else. */
  lemma ApprovedProvidersAreRows(s: State, p: Provider, u: User)
    ensures p in ApprovedProviders(s, u) <==> StatusOf(s, p, u) == Some(Approved)
  {
    assert p in ApprovedProviders(s, u) <==> (p, u) in s.auths && s.auths[(p, u)] == Approved;
  }

  /** A call that reports an error changes nothing, but for the account a processed request creates. */
  lemma RefusedCallsChangeNothing(max: nat, s: State, c: Call)
    requires Answer(max, s, c).error.Some?
    ensures Answer(max, s, c).state == if c.AdminProcesses? then s.(users := s.users + {c.u}) else s
  {
  }

  /** What each error means. */
  lemma ErrorsAreExplained(max: nat, s: State, c: Call)
    requires Answer(max, s, c).error.Some?
    ensures match Answer(max, s, c).error.value
            case NotFound =>
              || ((c.UserApproves? || c.UserRejects? || c.UserRevokes?) && StatusOf(s, c.p, c.u).None?)
              || (c.ProviderRevokes? && c.u !in s.users)
              || ((c.ProviderDeletes? || c.AdminApproves? || c.AdminRejects?)
                  && (c.u !in s.users || StatusOf(s, c.p, c.u).None?))
            case InvalidStatus =>
              || (c.UserApproves? && StatusOf(s, c.p, c.u) == Some(Revoked))
              || (c.UserRejects? && StatusOf(s, c.p, c.u) in {Some(Approved), Some(Revoked)})
            case TooManyProviders =>
              && (c.UserApproves? || c.AdminApproves?) && StatusOf(s, c.p, c.u) == Some(Pending)
              && |ApprovedProviders(s, c.u)| >= max
            case NotAuthorized =>
              || (c.ProviderRevokes? && c.u in s.users && StatusOf(s, c.p, c.u).None?)
              || (c.ProviderSubscribes? && StatusOf(s, c.p, c.u) != Some(Approved))
            case BadInvite => c.AdminProcesses? && c.invited && !c.genuine && StatusOf(s, c.p, c.u).None?
  {
    if c.UserRejects? && StatusOf(s, c.p, c.u) == Some(Pending) {
      RejectionKeepsSubscriptions(max, s, c, c.p, c.u);
    }
  }

  /** Which calls report no error. */
  lemma AcceptedExactlyWhen(max: nat, s: State, c: Call)
    ensures var r := Answer(max, s, c);
            r.error.None? <==>
            match c
            case UserApproves(p, u) => StatusOf(r.state, p, u) == Some(Approved)
            case UserRejects(p, u) => StatusOf(s, p, u) == Some(Pending)
            case UserRevokes(p, u) => StatusOf(s, p, u).Some?
            case ProviderConnects(_, _) => true
            case ProviderRevokes(p, u) => u in s.users && StatusOf(s, p, u).Some?
            case ProviderDeletes(p, u) => u in s.users && StatusOf(s, p, u).Some?
            case AdminProcesses(p, u, invited, genuine) => invited && StatusOf(s, p, u).None? ==> genuine
            case AdminApproves(p, u) =>
              && u in s.users && StatusOf(s, p, u).Some?
              && (StatusOf(s, p, u) == Some(Pending) ==> |ApprovedProviders(s, u)| < max)
            case AdminRejects(p, u) => u in s.users && StatusOf(s, p, u).Some?
            case ProviderSubscribes(p, u, _) => StatusOf(s, p, u) == Some(Approved)
            case _ => true
  {
  }

  // ------------------------------------------------------------------
  // Subscriptions
  // ------------------------------------------------------------------

  /** A user sees own subscriptions, and those of approved providers only. */
  lemma ListingShowsExactly(s: State, u: User, b: Sub)
    ensures b in Listing(s, u) <==>
            b in s.subs && b.user == u && (b.provider.Some? ==> StatusOf(s, b.provider.value, u) == Some(Approved))
  {
    SelectElements(s.subs, VisibleTo(s, u));
    if b.provider.Some? {
      ApprovedProvidersAreRows(s, b.provider.value, u);
    }
  }

  /** A subscription appears, first in the list, only when a user or an approved provider creates it. */
  lemma SubscriptionsAppearExactlyWhen(max: nat, s: State, c: Call, b: Sub)
    requires b !in s.subs
    ensures b in Answer(max, s, c).state.subs <==>
            || (c == UserSubscribes(b.user, b.token) && b.provider == None)
            || (b.provider.Some? && c == ProviderSubscribes(b.provider.value, b.user, b.token)
                && StatusOf(s, b.provider.value, b.user) == Some(Approved))
  {
    SubscriptionsAfterCall(max, s, c, b);
  }

  lemma SubscriptionsAfterCall(max: nat, s: State, c: Call, b: Sub)
    ensures var subs := Answer(max, s, c).state.subs;
            match c
            case UserSubscribes(u, token) => subs == [Sub(token, u, None)] + s.subs
            case ProviderSubscribes(p, u, token) =>
              subs == if StatusOf(s, p, u) == Some(Approved) then [Sub(token, u, Some(p))] + s.subs else s.subs
            case SubscriptionDeleted(token) => b in subs <==> b in s.subs && b.token != token
            case ProviderDeletes(p, u) =>
              b in subs <==> b in s.subs && !(b.provider == Some(p) && b.user == u && u in s.users
                                              && StatusOf(s, p, u).Some?)
            case _ => subs == s.subs
  {
    match c
    case SubscriptionDeleted(token) =>
      SelectElements(s.subs, (x: Sub) => x.token != token);
    case ProviderDeletes(p, u) =>
      SelectElements(s.subs, NotOwnedBy(p, u));
    case UserRejects(p, u) =>
      if Rejects(s, c, p, u) {
        RejectionKeepsSubscriptions(max, s, c, p, u);
      }
    case AdminRejects(p, u) =>
      if Rejects(s, c, p, u) {
        RejectionKeepsSubscriptions(max, s, c, p, u);
      }
    case _ =>
  }

  /** A subscription goes exactly by its own deletion, or by its provider deleting the connection it depends on. */
  lemma SubscriptionsGoExactlyWhen(max: nat, s: State, c: Call, b: Sub)
    requires b in s.subs
    ensures b !in Answer(max, s, c).state.subs <==>
            || c == SubscriptionDeleted(b.token)
            || (b.provider.Some? && c == ProviderDeletes(b.provider.value, b.user) && b.user in s.users
                && StatusOf(s, b.provider.value, b.user).Some?)
  {
    SubscriptionsAfterCall(max, s, c, b);
  }

  /** Over whole runs: between having a subscription and not, one of these two calls was made. */
  lemma {:induction false} LossOfSubscriptionHasACause(max: nat, calls: seq<Call>, i: nat, j: nat, b: Sub)
    returns (k: nat)
    requires i <= j <= |calls| && b in Run(max, calls[..i]).subs && b !in Run(max, calls[..j]).subs
    ensures i <= k < j
    ensures || calls[k] == SubscriptionDeleted(b.token)
            || (b.provider.Some? && calls[k] == ProviderDeletes(b.provider.value, b.user))
    decreases j
  {
    k := j - 1;
    if b in Run(max, calls[..k]).subs {
      RunOfPrefix(max, calls, j);
      SubscriptionsGoExactlyWhen(max, Run(max, calls[..k]), calls[k], b);
    } else {
      k := LossOfSubscriptionHasACause(max, calls, i, k, b);
    }
  }
}
