/**
 Violation counters and bans in Redis: a counter expires a fixed time after its
 first violation, a ban carries its end time and expires at that time.
 */
module BanService {
  import opened Subscriptions

  type Address = nat

  /** A stored value and the time its key expires. */
  datatype Timed = Timed(value: int, expiresAt: int)

  /** What Redis holds about one address. */
  datatype Record = Record(ban: Option<Timed>, counter: Option<Timed>)

  datatype Policy = Policy(maxViolations: int, window: int, banDuration: int)

  const CLEAN := Record(None, None)

  /** Redis drops a key at its expiry time. */
  function Live(x: Option<Timed>, now: int): Option<Timed> {
    if x.Some? && now < x.value.expiresAt then x else None
  }

  // ------------------------------------------------------------------
  // Operations on the record of one address
  // ------------------------------------------------------------------

  /** Redis refuses to set a key with an expiry that is not positive. */
  function SetBan(r: Record, now: int, duration: int): Record {
    if duration <= 0 then r else r.(ban := Some(Timed(now + duration, now + duration)))
  }

  function Increment(c: Policy, r: Record, now: int): Timed {
    var live := Live(r.counter, now);
    if live.Some? then Timed(live.value.value + 1, live.value.expiresAt) else Timed(1, now + c.window)
  }

  function Triggers(c: Policy, r: Record, now: int): bool {
    Increment(c, r, now).value >= c.maxViolations
  }

  function Violate(c: Policy, r: Record, now: int): Record {
    if Triggers(c, r, now) then SetBan(r, now, c.banDuration).(counter := None)
    else r.(counter := Some(Increment(c, r, now)))
  }

  function Banned(r: Record, now: int): bool {
    Live(r.ban, now).Some? && now < r.ban.value.value
  }

  /** A check drops a ban that is over but still stored. */
  function Checked(r: Record, now: int): Record {
    if Live(r.ban, now).Some? && now >= r.ban.value.value then r.(ban := None) else r
  }

  // ------------------------------------------------------------------
  // The service
  // ------------------------------------------------------------------

  class Service {
    const config: Policy
    var bans: map<Address, Timed>
    var counters: map<Address, Timed>

    constructor (config: Policy)
      ensures this.config == config && forall ip :: RecordOf(ip) == CLEAN
    {
      this.config := config;
      bans, counters := map[], map[];
    }

    function RecordOf(ip: Address): Record
      reads this
    {
      Record(if ip in bans then Some(bans[ip]) else None, if ip in counters then Some(counters[ip]) else None)
    }

    twostate predicate OnlyChanges(ip: Address)
      reads this
    {
      forall other :: other != ip ==> RecordOf(other) == old(RecordOf(other))
    }

    method IsBanned(ip: Address, now: int) returns (banned: bool)
      modifies `bans
      ensures banned == Banned(old(RecordOf(ip)), now)
      ensures RecordOf(ip) == Checked(old(RecordOf(ip)), now) && OnlyChanges(ip)
    {
      if ip !in bans || now >= bans[ip].expiresAt {
        return false;
      }
      if now >= bans[ip].value {
        bans := bans - {ip};
        return false;
      }
      return true;
    }

    method RecordViolation(ip: Address, now: int) returns (banned: bool)
      modifies this
      ensures banned == Triggers(config, old(RecordOf(ip)), now)
      ensures RecordOf(ip) == Violate(config, old(RecordOf(ip)), now) && OnlyChanges(ip)
    {
      if ip in counters && now >= counters[ip].expiresAt {
        counters := counters - {ip};
      }
      var violations := if ip in counters then counters[ip].value + 1 else 1;
      var expiry := if ip in counters then counters[ip].expiresAt else now + config.window;
      counters := counters[ip := Timed(violations, expiry)];
      if violations >= config.maxViolations {
        BanFor(ip, now, config.banDuration);
        counters := counters - {ip};
        return true;
      }
      return false;
    }

    method BanFor(ip: Address, now: int, duration: int)
      modifies `bans
      ensures RecordOf(ip) == SetBan(old(RecordOf(ip)), now, duration) && OnlyChanges(ip)
      ensures bans == if duration > 0 then old(bans)[ip := Timed(now + duration, now + duration)] else old(bans)
    {
      if duration > 0 {
        bans := bans[ip := Timed(now + duration, now + duration)];
      }
    }

    method BanIp(ip: Address, now: int, duration: Option<int>)
      modifies `bans
      ensures var seconds := if duration.Some? then duration.value else config.banDuration;
              RecordOf(ip) == SetBan(old(RecordOf(ip)), now, seconds)
      ensures OnlyChanges(ip)
    {
      BanFor(ip, now, if duration.Some? then duration.value else config.banDuration);
    }

    method UnbanIp(ip: Address, now: int) returns (wasBanned: bool)
      modifies this
      ensures wasBanned == Live(old(RecordOf(ip)).ban, now).Some?
      ensures RecordOf(ip) == CLEAN && OnlyChanges(ip)
    {
      wasBanned := ip in bans && now < bans[ip].expiresAt;
      bans, counters := bans - {ip}, counters - {ip};
    }
  }

  // ------------------------------------------------------------------
  // Runs
  // ------------------------------------------------------------------

  datatype Event = Violation(time: int) | ManualBan(time: int, duration: int) | Unban(time: int) | Query(time: int)

  function Step(c: Policy, r: Record, e: Event): Record {
    match e
    case Violation(t) => Violate(c, r, t)
    case ManualBan(t, d) => SetBan(r, t, d)
    case Unban(_) => CLEAN
    case Query(t) => Checked(r, t)
  }

  function Run(c: Policy, es: seq<Event>): Record {
    if es == [] then CLEAN else Step(c, Run(c, es[..|es| - 1]), es[|es| - 1])
  }

  // ------------------------------------------------------------------
  // Windows, told from the history alone
  // ------------------------------------------------------------------

  function Violations(es: seq<Event>): nat {
    if es == [] then 0 else Violations(es[..|es| - 1]) + if es[|es| - 1].Violation? then 1 else 0
  }

  /** The violation that opened the window still counting, whether or not that window is over. */
  function Opening(c: Policy, es: seq<Event>): (k: Option<nat>)
    ensures k.Some? ==> k.value < |es|
    decreases |es|, 2
  {
    if es == [] then None
    else
      match es[|es| - 1]
      case Unban(_) => None
      case Violation(_) => if CompletesWindow(c, es) then None else Some(WindowOf(c, es))
      case _ => Opening(c, es[..|es| - 1])
  }

  /** The opening of the window the last event falls in: its own, unless one is open at its time. */
  function WindowOf(c: Policy, es: seq<Event>): (k: nat)
    requires es != []
    ensures k < |es|
    decreases |es|, 0
  {
    var last := |es| - 1;
    var open := Opening(c, es[..last]);
    if open.Some? && es[last].time < es[open.value].time + c.window then open.value else last
  }

  /** The last event is a violation, and with it the window holds as many as are tolerated. */
  predicate CompletesWindow(c: Policy, es: seq<Event>)
    decreases |es|, 1
  {
    es != [] && es[|es| - 1].Violation? && Violations(es[WindowOf(c, es)..]) >= c.maxViolations
  }

  /** No unban and no violation outside the window since event `k` opened it. */
  ghost predicate Counting(c: Policy, es: seq<Event>, k: nat) {
    && k < |es| && es[k].Violation? && WindowOf(c, es[..k + 1]) == k
    && (forall i :: k <= i < |es| ==> !es[i].Unban?)
    && (forall i :: k < i < |es| && es[i].Violation? ==> es[i].time < es[k].time + c.window)
  }

  lemma CountingGoesOn(c: Policy, es: seq<Event>, k: nat)
    requires es != [] && !es[|es| - 1].Unban? && Counting(c, es[..|es| - 1], k)
    requires es[|es| - 1].Violation? ==> es[|es| - 1].time < es[k].time + c.window
    ensures Counting(c, es, k)
  {
    var before := es[..|es| - 1];
    assert before[..k + 1] == es[..k + 1];
    assert forall i :: 0 <= i < |before| ==> es[i] == before[i];
  }

  lemma OneMoreEvent(es: seq<Event>, k: nat)
    requires k < |es|
    ensures Violations(es[k..]) ==
            (if k < |es| - 1 then Violations(es[..|es| - 1][k..]) else 0) + if es[|es| - 1].Violation? then 1 else 0
  {
    if k < |es| - 1 {
      assert es[k..][..|es| - 1 - k] == es[..|es| - 1][k..];
    } else {
      assert es[k..] == [es[k]] && [es[k]][..0] == [];
    }
  }

  lemma OpensItself(c: Policy, es: seq<Event>)
    requires es != [] && es[|es| - 1].Violation? && WindowOf(c, es) == |es| - 1
    ensures Counting(c, es, |es| - 1)
  {
    assert es[..|es| - 1 + 1] == es;
  }

  /** An open window is counting and not full; the window a violation falls in is counting, and full at most. */
  lemma {:induction false} WindowsCount(c: Policy, es: seq<Event>)
    ensures Opening(c, es).Some? ==>
              Counting(c, es, Opening(c, es).value) && Violations(es[Opening(c, es).value..]) < c.maxViolations
    ensures es != [] && es[|es| - 1].Violation? ==>
              Counting(c, es, WindowOf(c, es))
    ensures es != [] && es[|es| - 1].Violation? && c.maxViolations >= 1 ==>
              Violations(es[WindowOf(c, es)..]) <= c.maxViolations
  {
    if es != [] {
      var last := |es| - 1;
      var open := Opening(c, es[..last]);
      WindowsCount(c, es[..last]);
      if es[last].Violation? {
        OneMoreEvent(es, WindowOf(c, es));
        if WindowOf(c, es) == last {
          OpensItself(c, es);
        } else {
          CountingGoesOn(c, es, open.value);
        }
      } else if open.Some? && !es[last].Unban? {
        OneMoreEvent(es, open.value);
        CountingGoesOn(c, es, open.value);
      }
    }
  }

  lemma CountingBefore(c: Policy, es: seq<Event>, k: nat)
    requires Counting(c, es, k) && k < |es| - 1
    ensures Counting(c, es[..|es| - 1], k)
  {
    var before := es[..|es| - 1];
    assert es[..k + 1] == before[..k + 1];
    assert forall i :: 0 <= i < |before| ==> before[i] == es[i];
  }

  /** The last violation falls in the window that is counting and was not full before. */
  lemma {:induction false} CountingIsOpen(c: Policy, es: seq<Event>, k: nat)
    requires Counting(c, es, k)
    requires k < |es| - 1 ==> Violations(es[..|es| - 1][k..]) < c.maxViolations
    ensures es[|es| - 1].Violation? ==> WindowOf(c, es) == k
    ensures Violations(es[k..]) < c.maxViolations ==> Opening(c, es) == Some(k)
  {
    if k == |es| - 1 {
      assert es[..k + 1] == es;
    } else {
      var before := es[..|es| - 1];
      CountingBefore(c, es, k);
      OneMoreEvent(before, k);
      CountingIsOpen(c, before, k);
    }
  }

  // ------------------------------------------------------------------
  // Bans and counters over whole runs
  // ------------------------------------------------------------------

  /** The stored counter is the number of violations in the window the history opened. */
  lemma {:induction false} CounterIsHistory(c: Policy, es: seq<Event>)
    ensures Run(c, es).counter ==
            match Opening(c, es)
            case None => None
            case Some(k) => Some(Timed(Violations(es[k..]), es[k].time + c.window))
    ensures es != [] && es[|es| - 1].Violation? ==>
              Increment(c, Run(c, es[..|es| - 1]), es[|es| - 1].time).value == Violations(es[WindowOf(c, es)..])
  {
    if es != [] {
      var last := |es| - 1;
      CounterIsHistory(c, es[..last]);
      OneMoreEvent(es, WindowOf(c, es));
      if Opening(c, es[..last]).Some? {
        OneMoreEvent(es, Opening(c, es[..last]).value);
      }
    }
  }

  /** The last event of the run is a violation that bans. */
  predicate BansLast(c: Policy, es: seq<Event>) {
    es != [] && es[|es| - 1].Violation? && Triggers(c, Run(c, es[..|es| - 1]), es[|es| - 1].time)
  }

  /** A violation bans exactly when it completes the `maxViolations` of the window it falls in. */
  lemma AutomaticBanExactlyWhen(c: Policy, es: seq<Event>)
    ensures BansLast(c, es) <==> CompletesWindow(c, es)
    ensures c.maxViolations >= 1 ==>
              (BansLast(c, es) <==>
               && es != [] && es[|es| - 1].Violation?
               && exists k: nat :: Counting(c, es, k) && Violations(es[k..]) == c.maxViolations)
  {
    CounterIsHistory(c, es);
    WindowsCount(c, es);
    if c.maxViolations >= 1 && es != [] && es[|es| - 1].Violation? {
      forall k: nat | Counting(c, es, k) && Violations(es[k..]) == c.maxViolations
        ensures CompletesWindow(c, es)
      {
        OneMoreEvent(es, k);
        CountingIsOpen(c, es, k);
      }
    }
  }

  /**
   A live counter holds the number of violations since its window opened, all
   of them inside the window, and it is below the threshold.
   */
  lemma LiveCounterCountsItsWindow(c: Policy, es: seq<Event>, now: int) returns (k: nat)
    requires Live(Run(c, es).counter, now).Some?
    ensures Counting(c, es, k) && now < es[k].time + c.window
    ensures Run(c, es).counter.value.value == Violations(es[k..]) < c.maxViolations
  {
    CounterIsHistory(c, es);
    WindowsCount(c, es);
    k := Opening(c, es).value;
  }

  datatype Ban = Ban(at: int, duration: int)

  /** The latest ban, manual or automatic, that no later unban undid. */
  function LatestBan(c: Policy, es: seq<Event>): Option<Ban> {
    if es == [] then None
    else
      var last := es[|es| - 1];
      if last.Unban? then None
      else if last.ManualBan? && last.duration > 0 then Some(Ban(last.time, last.duration))
      else if CompletesWindow(c, es) && c.banDuration > 0 then Some(Ban(last.time, c.banDuration))
      else LatestBan(c, es[..|es| - 1])
  }

  lemma {:induction false} StoredBanIsLatest(c: Policy, es: seq<Event>)
    ensures Run(c, es).ban ==
            match LatestBan(c, es)
            case None => None
            case Some(b) => Some(Timed(b.at + b.duration, b.at + b.duration))
  {
    if es != [] {
      StoredBanIsLatest(c, es[..|es| - 1]);
      AutomaticBanExactlyWhen(c, es);
    }
  }

  /** An address is banned at `t` exactly when the latest ban not undone is still running. */
  lemma BannedExactlyDuringLatestBan(c: Policy, es: seq<Event>, t: int)
    ensures Banned(Run(c, es), t) <==>
            match LatestBan(c, es)
            case None => false
            case Some(b) => t < b.at + b.duration
  {
    StoredBanIsLatest(c, es);
  }

  lemma RunOneMore(c: Policy, es: seq<Event>, e: Event)
    ensures Run(c, es + [e]) == Step(c, Run(c, es), e)
  {
    assert (es + [e])[..|es|] == es;
  }

  /** Windows do not slide: three violations within two seconds can straddle two windows and go unpunished. */
  lemma ViolationsAcrossWindowsEscape()
    ensures Run(Policy(3, 600, 10800), [Violation(0), Violation(599), Violation(600), Violation(601)]).ban.None?
  {
    var c := Policy(3, 600, 10800);
    RunOneMore(c, [], Violation(0));
    assert [] + [Violation(0)] == [Violation(0)];
    RunOneMore(c, [Violation(0)], Violation(599));
    RunOneMore(c, [Violation(0), Violation(599)], Violation(600));
    RunOneMore(c, [Violation(0), Violation(599), Violation(600)], Violation(601));
    assert [Violation(0)] + [Violation(599)] == [Violation(0), Violation(599)];
    assert [Violation(0), Violation(599)] + [Violation(600)] == [Violation(0), Violation(599), Violation(600)];
    assert [Violation(0), Violation(599), Violation(600)] + [Violation(601)] ==
           [Violation(0), Violation(599), Violation(600), Violation(601)];
  }
}
