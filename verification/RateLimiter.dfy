/**
 The sliding-window limiter: one Redis key holding a sorted set of millisecond
 timestamps, pruned and expired as requests come in. The member of the set is
 the timestamp itself.
 */
module RateLimiter {
  import opened Collections

  /** The key as Redis holds it; an absent key has no entries. */
  datatype Key = Key(entries: set<int>, expiresAt: int)

  datatype Window = Window(maxRequests: nat, seconds: nat)

  function Millis(w: Window): nat {
    w.seconds * 1000
  }

  const ABSENT := Key({}, 0)

  /** The entries Redis still has at `now`. */
  function Live(k: Key, now: int): set<int> {
    if now >= k.expiresAt then {} else k.entries
  }

  /** Drop the entries with a score from 0 up to `cutoff`. */
  function Prune(entries: set<int>, cutoff: int): set<int> {
    set t | t in entries && !(0 <= t <= cutoff)
  }

  /** The script: prune, count, and admit while there is room. */
  function Admits(w: Window, k: Key, now: int): bool {
    |Prune(Live(k, now), now - Millis(w))| < w.maxRequests
  }

  function After(w: Window, k: Key, now: int): Key {
    var kept := Prune(Live(k, now), now - Millis(w));
    if Admits(w, k, now) then Key(kept + {now}, now + 2 * Millis(w)) else Key(kept, k.expiresAt)
  }

  class Limiter {
    const window: Window
    var entries: set<int>
    var expiresAt: int

    function State(): Key
      reads this
    {
      Key(entries, expiresAt)
    }

    constructor (window: Window)
      ensures this.window == window && State() == ABSENT
    {
      this.window := window;
      entries, expiresAt := {}, 0;
    }

    method CheckLimit(now: int) returns (allowed: bool)
      modifies this
      ensures allowed == Admits(window, old(State()), now)
      ensures State() == After(window, old(State()), now)
    {
      if now >= expiresAt {
        entries := {};
      }
      entries := Prune(entries, now - Millis(window));
      if |entries| < window.maxRequests {
        entries := entries + {now};
        expiresAt := now + 2 * Millis(window);
        return true;
      }
      return false;
    }
  }

  // ------------------------------------------------------------------
  // Runs, and the limiter that forgets nothing
  // ------------------------------------------------------------------

  function Run(w: Window, times: seq<int>): Key {
    if times == [] then ABSENT else After(w, Run(w, times[..|times| - 1]), times[|times| - 1])
  }

  /** Whether the last of `times` is admitted. */
  function LastAdmitted(w: Window, times: seq<int>): bool
    requires times != []
  {
    Admits(w, Run(w, times[..|times| - 1]), times[|times| - 1])
  }

  /** Every timestamp ever admitted. */
  function Admitted(w: Window, times: seq<int>): set<int> {
    if times == [] then {}
    else Admitted(w, times[..|times| - 1]) + if LastAdmitted(w, times) then {times[|times| - 1]} else {}
  }

  function Recent(log: set<int>, w: Window, now: int): set<int> {
    set t | t in log && t > now - 1000 * w.seconds
  }

  ghost predicate Clocked(times: seq<int>) {
    && (forall i :: 0 <= i < |times| ==> 0 <= times[i])
    && forall i, j :: 0 <= i <= j < |times| ==> times[i] <= times[j]
  }

  /** From `last` on, what is left of the key is what matters of the full log. */
  ghost predicate Agrees(w: Window, k: Key, log: set<int>, last: int) {
    forall now :: now >= last ==> Prune(Live(k, now), now - Millis(w)) == Recent(log, w, now)
  }

  ghost predicate UpTo(log: set<int>, last: int) {
    forall t :: t in log ==> 0 <= t <= last
  }

  lemma RequestKeepsAgreement(w: Window, k: Key, log: set<int>, last: int, now: int)
    requires Agrees(w, k, log, last) && UpTo(log, last) && 0 <= now && last <= now
    ensures var admitted := Admits(w, k, now);
            admitted == (|Recent(log, w, now)| < w.maxRequests)
            && Agrees(w, After(w, k, now), if admitted then log + {now} else log, now)
  {
    var next, log' := After(w, k, now), if Admits(w, k, now) then log + {now} else log;
    assert Prune(Live(k, now), now - Millis(w)) == Recent(log, w, now);
    forall later | later >= now
      ensures Prune(Live(next, later), later - Millis(w)) == Recent(log', w, later)
    {
      assert Prune(Live(k, later), later - Millis(w)) == Recent(log, w, later);
    }
  }

  lemma {:induction false} RunAgrees(w: Window, times: seq<int>, last: int)
    requires Clocked(times) && 0 <= last && (times != [] ==> times[|times| - 1] <= last)
    ensures Agrees(w, Run(w, times), Admitted(w, times), last) && UpTo(Admitted(w, times), last)
  {
    if times != [] {
      var before, now := times[..|times| - 1], times[|times| - 1];
      RunAgrees(w, before, now);
      RequestKeepsAgreement(w, Run(w, before), Admitted(w, before), now, now);
    }
  }

  /** Pruning and expiry are unobservable: each decision is the one the full log would give. */
  lemma DecidesAsIfNothingWereForgotten(w: Window, times: seq<int>)
    requires times != [] && Clocked(times)
    ensures var before, now := times[..|times| - 1], times[|times| - 1];
            LastAdmitted(w, times) <==> |Recent(Admitted(w, before), w, now)| < w.maxRequests
  {
    var before, now := times[..|times| - 1], times[|times| - 1];
    RunAgrees(w, before, now);
    RequestKeepsAgreement(w, Run(w, before), Admitted(w, before), now, now);
  }

  ghost predicate Latest(log: set<int>, t: int) {
    t in log && forall x :: x in log ==> x <= t
  }

  /** The key expires two windows after the last admission; without one there is none. */
  lemma {:induction false} KeyExpiresAfterTwoWindows(w: Window, times: seq<int>)
    requires Clocked(times)
    ensures if Admitted(w, times) == {} then Run(w, times) == ABSENT
            else exists t :: Latest(Admitted(w, times), t) && Run(w, times).expiresAt == t + 2000 * w.seconds
  {
    if times != [] {
      var before, now := times[..|times| - 1], times[|times| - 1];
      KeyExpiresAfterTwoWindows(w, before);
      RunAgrees(w, before, now);
      if LastAdmitted(w, times) {
        assert Latest(Admitted(w, times), now);
      } else {
        assert Admitted(w, times) == Admitted(w, before);
      }
    }
  }

  /** After each request the key holds the admissions of the window, that of the request included, and no other. */
  lemma KeyHoldsTheWindow(w: Window, times: seq<int>)
    requires times != [] && Clocked(times)
    ensures var before, now := times[..|times| - 1], times[|times| - 1];
            Run(w, times).entries ==
            Recent(Admitted(w, before), w, now) + if LastAdmitted(w, times) then {now} else {}
  {
    var before, now := times[..|times| - 1], times[|times| - 1];
    RunAgrees(w, before, now);
    assert Prune(Live(Run(w, before), now), now - Millis(w)) == Recent(Admitted(w, before), w, now);
  }

  function Between(log: set<int>, low: int, high: int): set<int> {
    set t | t in log && low < t <= high
  }

  lemma AdmissionFits(w: Window, log: set<int>, now: int, a: int, high: int)
    requires high == a + 1000 * w.seconds && a < now <= high && |Recent(log, w, now)| < w.maxRequests
    ensures |Between(log + {now}, a, high)| <= w.maxRequests
  {
    var earlier := Between(log, a, high);
    assert Between(log + {now}, a, high) == earlier + {now};
    assert earlier <= Recent(log, w, now);
    SubsetSize(earlier, Recent(log, w, now));
  }

  lemma OtherAdmissionsStay(log: set<int>, now: int, low: int, high: int)
    requires !(low < now <= high)
    ensures Between(log + {now}, low, high) == Between(log, low, high)
  {
  }

  lemma {:induction false} AdmissionsFit(w: Window, times: seq<int>, a: int, high: int)
    requires Clocked(times) && high == a + 1000 * w.seconds
    ensures |Between(Admitted(w, times), a, high)| <= w.maxRequests
  {
    if times != [] {
      var before, now := times[..|times| - 1], times[|times| - 1];
      var log := Admitted(w, before);
      AdmissionsFit(w, before, a, high);
      if !LastAdmitted(w, times) {
        assert Admitted(w, times) == log;
      } else if a < now <= high {
        DecidesAsIfNothingWereForgotten(w, times);
        AdmissionFits(w, log, now, a, high);
      } else {
        OtherAdmissionsStay(log, now, a, high);
      }
    }
  }

  /** No interval as long as the window contains more than `maxRequests` admitted timestamps. */
  lemma {:induction false} AdmissionsAreBounded(w: Window, times: seq<int>, a: int)
    requires Clocked(times)
    ensures |Between(Admitted(w, times), a, a + 1000 * w.seconds)| <= w.maxRequests
  {
    AdmissionsFit(w, times, a, a + 1000 * w.seconds);
  }

  // ------------------------------------------------------------------
  // Requests and timestamps
  // ------------------------------------------------------------------

  /** How many requests made in (low, high] were admitted. */
  function AdmittedRequests(w: Window, times: seq<int>, low: int, high: int): nat {
    if times == [] then 0
    else AdmittedRequests(w, times[..|times| - 1], low, high) +
         if LastAdmitted(w, times) && low < times[|times| - 1] <= high then 1 else 0
  }

  function RequestsFrom(w: Window, times: seq<int>, a: int): nat {
    AdmittedRequests(w, times, a, a + 1000 * w.seconds)
  }

  /** What is documented: no window contains more than `maxRequests` admitted requests. */
  ghost predicate RequestsBounded(w: Window, times: seq<int>) {
    forall a :: RequestsFrom(w, times, a) <= w.maxRequests
  }

  /** Every admitted request had a timestamp that was not in the log yet. */
  ghost predicate NoneRepeated(w: Window, times: seq<int>) {
    times == [] ||
    var before, now := times[..|times| - 1], times[|times| - 1];
    NoneRepeated(w, before) && (LastAdmitted(w, times) ==> now !in Admitted(w, before))
  }

  lemma {:induction false} RequestsAreTimestamps(w: Window, times: seq<int>, low: int, high: int)
    requires NoneRepeated(w, times)
    ensures AdmittedRequests(w, times, low, high) == |Between(Admitted(w, times), low, high)|
  {
    if times != [] {
      var before, now := times[..|times| - 1], times[|times| - 1];
      RequestsAreTimestamps(w, before, low, high);
      var log := Admitted(w, before);
      BetweenGrows(log, now, low, high);
      assert Admitted(w, times) == if LastAdmitted(w, times) then log + {now} else log;
    }
  }

  lemma BetweenGrows(log: set<int>, now: int, low: int, high: int)
    ensures now !in log ==> |Between(log + {now}, low, high)| ==
                            |Between(log, low, high)| + if low < now <= high then 1 else 0
  {
    assert Between(log + {now}, low, high) == Between(log, low, high) + if low < now <= high then {now} else {};
  }

  ghost predicate CountsTimestamps(w: Window, times: seq<int>) {
    forall low, high :: AdmittedRequests(w, times, low, high) == |Between(Admitted(w, times), low, high)|
  }

  lemma TimestampCountBounded(w: Window, times: seq<int>)
    requires Clocked(times) && CountsTimestamps(w, times)
    ensures RequestsBounded(w, times)
  {
    forall a
      ensures RequestsFrom(w, times, a) <= w.maxRequests
    {
      AdmissionsAreBounded(w, times, a);
      assert AdmittedRequests(w, times, a, a + Millis(w)) == |Between(Admitted(w, times), a, a + Millis(w))|;
    }
  }

  lemma RequestsWithinTimestamps(w: Window, times: seq<int>)
    requires Clocked(times) && NoneRepeated(w, times)
    ensures RequestsBounded(w, times)
  {
    forall low, high
      ensures AdmittedRequests(w, times, low, high) == |Between(Admitted(w, times), low, high)|
    {
      RequestsAreTimestamps(w, times, low, high);
    }
    TimestampCountBounded(w, times);
  }

  ghost predicate StrictlyClocked(times: seq<int>) {
    Clocked(times) && forall i, j :: 0 <= i < j < |times| ==> times[i] < times[j]
  }

  lemma {:induction false} StrictClockRepeatsNone(w: Window, times: seq<int>)
    requires StrictlyClocked(times)
    ensures NoneRepeated(w, times) && forall t :: t in Admitted(w, times) ==> t in times
  {
    if times != [] {
      StrictClockRepeatsNone(w, times[..|times| - 1]);
    }
  }

  /** When no two requests share a millisecond, the limit holds for requests as it is documented. */
  lemma StrictClockBoundsRequests(w: Window, times: seq<int>)
    requires StrictlyClocked(times)
    ensures RequestsBounded(w, times)
  {
    StrictClockRepeatsNone(w, times);
    RequestsWithinTimestamps(w, times);
  }

  /** With room for one only, a timestamp still in the window lets no other request in. */
  lemma {:induction false} SingleRoomRepeatsNone(w: Window, times: seq<int>)
    requires Clocked(times) && w.maxRequests <= 1 && w.seconds > 0
    ensures NoneRepeated(w, times)
  {
    if times != [] {
      var before, now := times[..|times| - 1], times[|times| - 1];
      SingleRoomRepeatsNone(w, before);
      DecidesAsIfNothingWereForgotten(w, times);
      assert now in Admitted(w, before) ==> now in Recent(Admitted(w, before), w, now);
    }
  }

  lemma {:induction false} EmptyWindowCountsNone(w: Window, times: seq<int>, a: int)
    ensures AdmittedRequests(w, times, a, a) == 0
  {
    if times != [] {
      EmptyWindowCountsNone(w, times[..|times| - 1], a);
    }
  }

  /** All requests are made in the same millisecond. */
  ghost predicate Burst(times: seq<int>, now: int) {
    forall i :: 0 <= i < |times| ==> times[i] == now
  }

  lemma BurstStep(w: Window, k: Key, now: int)
    requires w.maxRequests >= 2 && k.entries <= {now}
    ensures Admits(w, k, now) && After(w, k, now).entries <= {now}
  {
    SubsetSize(Prune(Live(k, now), now - Millis(w)), {now});
  }

  /** With room for two, any number of requests within one millisecond is admitted. */
  lemma {:induction false} BurstsAreAdmitted(w: Window, times: seq<int>, now: int, low: int, high: int)
    requires w.maxRequests >= 2 && Burst(times, now) && low < now <= high
    ensures Run(w, times).entries <= {now} && AdmittedRequests(w, times, low, high) == |times|
  {
    if times != [] {
      var before := times[..|times| - 1];
      BurstsAreAdmitted(w, before, now, low, high);
      BurstStep(w, Run(w, before), now);
    }
  }

  /**
   The limit holds for requests on every clocked run exactly when there is room
   for at most one, or the window is empty.
   */
  lemma RequestsAreBoundedExactlyWhen(w: Window)
    ensures (forall times :: Clocked(times) ==> RequestsBounded(w, times)) <==> w.maxRequests <= 1 || w.seconds == 0
  {
    if w.maxRequests <= 1 || w.seconds == 0 {
      forall times | Clocked(times)
        ensures RequestsBounded(w, times)
      {
        if w.seconds == 0 {
          forall a
            ensures RequestsFrom(w, times, a) <= w.maxRequests
          {
            EmptyWindowCountsNone(w, times, a);
          }
        } else {
          SingleRoomRepeatsNone(w, times);
          RequestsWithinTimestamps(w, times);
        }
      }
    } else {
      var burst := seq(w.maxRequests + 1, i => 1);
      BurstsAreAdmitted(w, burst, 1, 0, 0 + Millis(w));
      assert Clocked(burst) && RequestsFrom(w, burst, 0) > w.maxRequests;
    }
  }
}
