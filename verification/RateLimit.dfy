/** INCR plus EXPIRE on one key: a window per key lifetime, not the sliding window it is called. */
module RateLimit {
  import opened Strings

  /** A call let through: when, in which lifetime of the key, and the count it got. */
  datatype Pass = Pass(time: real, life: nat, rank: nat)

  /** The key (`count == 0`: absent), the expiry once set, how many lifetimes began, and every call let through. */
  datatype State = State(count: nat, expiry: Option<real>, life: nat, log: seq<Pass>)
  {
    predicate Expired(now: real) { count > 0 && expiry.Some? && now >= expiry.value }
  }

  const INIT := State(0, None, 0, [])

  /** The two Redis commands; EXPIRE is sent by the caller whose INCR returned 1, later or never. */
  datatype Event = Incr(time: real) | Expire(time: real)

  function Purge(s: State, now: real): State {
    if s.Expired(now) then s.(count := 0, expiry := None) else s
  }

  /** INCR and the comparison with the limit. */
  function Incremented(s: State, now: real, max: nat): State {
    var key := Purge(s, now);
    var count := key.count + 1;
    var life := if key.count == 0 then key.life + 1 else key.life;
    State(count, key.expiry, life, if count <= max then s.log + [Pass(now, life, count)] else s.log)
  }

  function Step(s: State, e: Event, max: nat, window: real): State {
    match e
    case Incr(now) => Incremented(s, now, max)
    case Expire(now) =>
      if s.count > 0 && s.expiry.None? then s.(expiry := Some(now + window)) else s
  }

  function Run(events: seq<Event>, max: nat, window: real): State {
    if events == [] then INIT else Step(Run(events[..|events| - 1], max, window), events[|events| - 1], max, window)
  }

  ghost predicate Ordered(events: seq<Event>) {
    forall i, j | 0 <= i < j < |events| :: events[i].time <= events[j].time
  }

  /** Within a lifetime the counts run 1, 2, 3, ...; a new lifetime starts at 1. */
  ghost predicate Ranked(log: seq<Pass>, max: nat) {
    && (forall k | 0 <= k < |log| :: 1 <= log[k].rank <= max)
    && (forall k | 0 <= k < |log| - 1 ::
          if log[k].life == log[k + 1].life then log[k + 1].rank == log[k].rank + 1
          else log[k].life < log[k + 1].life && log[k + 1].rank == 1)
  }

  /** A later lifetime lies a whole window after the first call of an earlier one. */
  ghost predicate Spaced(log: seq<Pass>, window: real) {
    forall j, k | 0 <= j < k < |log| ::
      log[j].time <= log[k].time && (log[j].rank == 1 && log[j].life < log[k].life ==> log[k].time >= log[j].time + window)
  }

  /** How the key stands to the log. */
  ghost predicate Current(s: State, max: nat, window: real, now: real) {
    && (forall k | 0 <= k < |s.log| :: s.log[k].time <= now && s.log[k].life <= s.life)
    && (s.count > 0 && s.count <= max ==> s.log != [] && s.log[|s.log| - 1].life == s.life && s.log[|s.log| - 1].rank == s.count)
    && (s.count > max > 0 ==> s.log != [] && s.log[|s.log| - 1].life == s.life && s.log[|s.log| - 1].rank == max)
    && (s.expiry.Some? ==> forall k | 0 <= k < |s.log| && s.log[k].rank == 1 :: s.expiry.value >= s.log[k].time + window)
    && (s.count == 0 ==> s.life == 0 && s.log == [] && s.expiry.None?)
  }

  ghost predicate Good(s: State, max: nat, window: real, now: real) {
    Ranked(s.log, max) && Spaced(s.log, window) && Current(s, max, window, now)
  }

  /** A call let through extends a good log by the next count of its lifetime. */
  lemma LogExtended(log: seq<Pass>, max: nat, window: real, p: Pass)
    requires Ranked(log, max) && Spaced(log, window) && 1 <= p.rank <= max
    requires forall k | 0 <= k < |log| :: log[k].time <= p.time
    requires forall k | 0 <= k < |log| && log[k].rank == 1 && log[k].life < p.life :: p.time >= log[k].time + window
    requires log != [] ==>
               var last := log[|log| - 1];
               if last.life == p.life then p.rank == last.rank + 1 else last.life < p.life && p.rank == 1
    ensures Ranked(log + [p], max) && Spaced(log + [p], window)
  {}

  /** The first call of a lifetime: whatever came before has expired. */
  lemma FreshLife(s: State, max: nat, window: real, now: real, time: real)
    requires Good(s, max, window, now) && now <= time && (s.count == 0 || s.Expired(time))
    ensures Good(Incremented(s, time, max), max, window, time)
  {
    hide Ranked, Spaced;
    if max > 0 {
      LogExtended(s.log, max, window, Pass(time, s.life + 1, 1));
    }
  }

  lemma SameLifeGoesOn(s: State, max: nat, window: real, now: real, time: real)
    requires Good(s, max, window, now) && now <= time && s.count > 0 && !s.Expired(time)
    ensures Good(Incremented(s, time, max), max, window, time)
  {
    hide Ranked, Spaced;
    if s.count < max {
      forall k | 0 <= k < |s.log| && s.log[k].rank == 1 && s.log[k].life < s.life ensures time >= s.log[k].time + window {
        EarlierLife(s.log, window, k);
      }
      LogExtended(s.log, max, window, Pass(time, s.life, s.count + 1));
    }
  }

  lemma IncrGood(s: State, max: nat, window: real, now: real, time: real)
    requires Good(s, max, window, now) && now <= time
    ensures Good(Incremented(s, time, max), max, window, time)
  {
    hide Good;
    if s.count == 0 || s.Expired(time) {
      FreshLife(s, max, window, now, time);
    } else {
      SameLifeGoesOn(s, max, window, now, time);
    }
  }

  lemma EarlierLife(log: seq<Pass>, window: real, k: nat)
    requires Spaced(log, window) && k < |log| && log[k].rank == 1 && log[k].life < log[|log| - 1].life
    ensures log[|log| - 1].time >= log[k].time + window
  {}

  lemma ExpireGood(s: State, max: nat, window: real, now: real, time: real)
    requires Good(s, max, window, now) && now <= time
    ensures Good(Step(s, Expire(time), max, window), max, window, time)
  {
    hide Ranked, Spaced;
  }

  lemma StepGood(s: State, e: Event, max: nat, window: real, now: real)
    requires Good(s, max, window, now) && now <= e.time
    ensures Good(Step(s, e, max, window), max, window, e.time)
  {
    hide Good;
    if e.Incr? {
      IncrGood(s, max, window, now, e.time);
    } else {
      ExpireGood(s, max, window, now, e.time);
    }
  }

  lemma LaterIsGood(s: State, max: nat, window: real, now: real, later: real)
    requires Good(s, max, window, now) && now <= later
    ensures Good(s, max, window, later)
  {}

  lemma {:induction false} RunGood(events: seq<Event>, max: nat, window: real, now: real)
    requires Ordered(events) && forall i | 0 <= i < |events| :: events[i].time <= now
    ensures Good(Run(events, max, window), max, window, now)
  {
    if events != [] {
      var last := |events| - 1;
      RunGood(events[..last], max, window, events[last].time);
      StepGood(Run(events[..last], max, window), events[last], max, window, events[last].time);
      LaterIsGood(Run(events, max, window), max, window, events[last].time, now);
    }
  }

  lemma {:induction false} SameLife(log: seq<Pass>, max: nat, i: nat, k: nat)
    requires Ranked(log, max) && i <= k < |log| && forall m | i <= m <= k :: log[m].life == log[i].life
    ensures log[k].rank == log[i].rank + (k - i)
    decreases k
  {
    if i < k {
      SameLife(log, max, i, k - 1);
      assert log[k - 1].life == log[k - 1 + 1].life;
    }
  }

  /** At most `max` calls pass in one lifetime of the key. */
  lemma PerLifetime(log: seq<Pass>, max: nat, i: nat, j: nat)
    requires Ranked(log, max) && i <= j <= |log| && forall m | i <= m < j :: log[m].life == log[i].life
    ensures j - i <= max
  {
    if i < j {
      SameLife(log, max, i, j - 1);
    }
  }

  /** Calls let through less than a window apart: at most one lifetime in full and the tail of the one before. */
  lemma SegmentBound(log: seq<Pass>, max: nat, window: real, i: nat, j: nat)
    requires Ranked(log, max) && Spaced(log, window) && i < j <= |log|
    requires log[j - 1].time < log[i].time + window
    ensures j - i <= 2 * max - 1
  {
    var m := FirstChange(log, max, i, j);
    PerLifetime(log, max, i, m);
    if m < j {
      forall k | m <= k < j ensures log[k].life == log[m].life {
        LifeMonotone(log, max, m, k);
        assert log[k].time <= log[j - 1].time;
      }
      PerLifetime(log, max, m, j);
      SameLife(log, max, i, m - 1);
      assert log[m].time <= log[j - 1].time;
      assert log[i].rank > 1;
    }
  }

  lemma {:induction false} LifeMonotone(log: seq<Pass>, max: nat, i: nat, k: nat)
    requires Ranked(log, max) && i <= k < |log|
    ensures log[i].life <= log[k].life
    decreases k
  {
    if i < k {
      LifeMonotone(log, max, i, k - 1);
      assert log[k - 1].life == log[k - 1 + 1].life || log[k - 1].life < log[k - 1 + 1].life;
    }
  }

  /** The first position after `i` where another lifetime starts, or `j`. */
  lemma {:induction false} FirstChange(log: seq<Pass>, max: nat, i: nat, j: nat) returns (m: nat)
    requires Ranked(log, max) && i < j <= |log|
    ensures i < m <= j && forall k | i <= k < m :: log[k].life == log[i].life
    ensures m < j ==> log[i].life < log[m].life && log[m].rank == 1
  {
    m := i + 1;
    while m < j && log[m].life == log[i].life
      invariant i < m <= j && forall k | i <= k < m :: log[k].life == log[i].life
    {
      m := m + 1;
    }
    if m < j {
      assert log[m - 1].life != log[m - 1 + 1].life;
    }
  }

  /** The calls let through at times in `[from, from + window)`. */
  function PassesIn(log: seq<Pass>, from: real, window: real): nat {
    if log == [] then 0
    else PassesIn(log[..|log| - 1], from, window) + if from <= log[|log| - 1].time < from + window then 1 else 0
  }

  lemma Sandwiched(log: seq<Pass>, window: real, j: nat, from: real)
    requires Spaced(log, window) && j < |log| && from <= log[j].time && log[|log| - 1].time < from + window
    ensures forall k | j <= k < |log| :: from <= log[k].time < from + window
  {}

  /** A log in order of time has them all in one stretch. */
  lemma {:induction false} PassesAreStretch(log: seq<Pass>, from: real, window: real) returns (i: nat, j: nat)
    requires Spaced(log, window)
    ensures i <= j <= |log| && PassesIn(log, from, window) == j - i
    ensures forall k | 0 <= k < |log| :: i <= k < j <==> from <= log[k].time < from + window
  {
    if log == [] {
      i, j := 0, 0;
    } else {
      var last := |log| - 1;
      assert Spaced(log[..last], window);
      i, j := PassesAreStretch(log[..last], from, window);
      assert forall k | 0 <= k < last :: log[..last][k] == log[k];
      if from <= log[last].time < from + window {
        if i < j {
          Sandwiched(log, window, j - 1, from);
          j := |log|;
        } else {
          i, j := last, |log|;
        }
      }
    }
  }

  /** In every run, in time order, whoever crashes: at most `2 * max - 1` calls pass in any half-open window. */
  lemma WindowBound(events: seq<Event>, max: nat, window: real, from: real)
    requires Ordered(events)
    ensures PassesIn(Run(events, max, window).log, from, window) <= if max == 0 then 0 else 2 * max - 1
  {
    var now := if events == [] then 0.0 else events[|events| - 1].time;
    RunGood(events, max, window, now);
    var log := Run(events, max, window).log;
    var i, j := PassesAreStretch(log, from, window);
    if i < j {
      SegmentBound(log, max, window, i, j);
    }
  }

  // Both ends included: one call more.

  /** A later lifetime starts later. */
  ghost predicate LivesApart(log: seq<Pass>) {
    forall j, k | 0 <= j < k < |log| && log[j].life < log[k].life :: log[j].time < log[k].time
  }

  /** Calls of the current lifetime come before its expiry. */
  ghost predicate Strict(s: State) {
    LivesApart(s.log) && (s.expiry.Some? ==> forall k | 0 <= k < |s.log| :: s.log[k].time < s.expiry.value)
  }

  lemma IncrStrict(s: State, max: nat, window: real, now: real, time: real)
    requires Good(s, max, window, now) && Strict(s) && now <= time
    ensures Strict(Incremented(s, time, max))
  {
    hide Ranked, Spaced;
    var t := Incremented(s, time, max);
    if t.log != s.log && s.count > 0 && !s.Expired(time) {
      var last := s.log[|s.log| - 1];
      assert forall j | 0 <= j < |s.log| && s.log[j].life < s.life :: s.log[j].time < last.time;
    }
  }

  lemma {:induction false} RunStrict(events: seq<Event>, max: nat, window: real)
    requires Ordered(events) && window > 0.0
    ensures Strict(Run(events, max, window))
  {
    if events != [] {
      var last, before := events[|events| - 1], events[..|events| - 1];
      RunStrict(before, max, window);
      RunGood(before, max, window, last.time);
      if last.Incr? {
        IncrStrict(Run(before, max, window), max, window, last.time, last.time);
      }
    }
  }

  lemma LaterLives(log: seq<Pass>, window: real, m: nat, j: nat)
    requires Spaced(log, window) && m < j <= |log|
    ensures forall n | m < n < j && log[m].rank == 1 && log[m].life < log[n].life :: log[j - 1].time >= log[m].time + window
  {}

  /** At most two lifetimes meet a closed window. */
  lemma ClosedSegmentBound(log: seq<Pass>, max: nat, window: real, i: nat, j: nat)
    requires Ranked(log, max) && Spaced(log, window) && LivesApart(log) && window > 0.0 && i < j <= |log|
    requires log[j - 1].time <= log[i].time + window
    ensures j - i <= 2 * max
  {
    var m := FirstChange(log, max, i, j);
    PerLifetime(log, max, i, m);
    if m < j {
      var n := FirstChange(log, max, m, j);
      PerLifetime(log, max, m, n);
      assert log[i].time < log[m].time;
      LaterLives(log, window, m, j);
    }
  }

  /** In every run, for every window that lasts: calls let through no further apart than the window are at most `2 * max`. */
  lemma ClosedWindowBound(events: seq<Event>, max: nat, window: real, i: nat, j: nat)
    requires Ordered(events) && window > 0.0 && i < j <= |Run(events, max, window).log|
    requires var log := Run(events, max, window).log; log[j - 1].time <= log[i].time + window
    ensures j - i <= 2 * max
  {
    RunGood(events, max, window, events[|events| - 1].time);
    RunStrict(events, max, window);
    ClosedSegmentBound(Run(events, max, window).log, max, window, i, j);
  }

  // The bound is met: the end of one lifetime and the start of the next fit into one window.

  function Repeated(e: Event, n: nat): seq<Event> { seq(n, _ => e) }

  /** `n` calls were let through at one moment. */
  predicate Appended(before: seq<Pass>, after: seq<Pass>, n: nat, now: real) {
    before <= after && |after| == |before| + n && (n > 0 ==> after[|after| - 1].time == now)
  }

  lemma {:induction false} BurstPasses(events: seq<Event>, max: nat, window: real, now: real, n: nat)
    requires var s := Run(events, max, window); s.count > 0 && !s.Expired(now) && s.count + n <= max
    ensures var s, t := Run(events, max, window), Run(events + Repeated(Incr(now), n), max, window);
            && t.count == s.count + n && t.expiry == s.expiry && Appended(s.log, t.log, n, now)
            && (forall from :: from <= now < from + window ==> PassesIn(t.log, from, window) == PassesIn(s.log, from, window) + n)
  {
    if n == 0 {
      assert events + Repeated(Incr(now), 0) == events;
    } else {
      var before := events + Repeated(Incr(now), n - 1);
      BurstPasses(events, max, window, now, n - 1);
      assert events + Repeated(Incr(now), n) == before + [Incr(now)];
      OneMore(before, max, window, now);
    }
  }

  /** One more call in a live lifetime below the limit. */
  lemma OneMore(events: seq<Event>, max: nat, window: real, now: real)
    requires var s := Run(events, max, window); s.count > 0 && !s.Expired(now) && s.count < max
    ensures var s, t := Run(events, max, window), Run(events + [Incr(now)], max, window);
            && t.count == s.count + 1 && t.expiry == s.expiry && Appended(s.log, t.log, 1, now)
            && (forall from :: from <= now < from + window ==> PassesIn(t.log, from, window) == PassesIn(s.log, from, window) + 1)
  {}

  /** One call and its EXPIRE; the rest of the limit just before it expires; a full limit just after. */
  function Straddling(max: nat, window: real): seq<Event>
    requires max >= 1
  {
    [Incr(0.0), Expire(0.0)] + Repeated(Incr(window / 2.0), max - 1) + [Incr(window)] + Repeated(Incr(window), max - 1)
  }

  lemma Opening(max: nat, window: real)
    requires max >= 1 && window > 0.0
    ensures Run([Incr(0.0), Expire(0.0)], max, window) == State(1, Some(window), 1, [Pass(0.0, 1, 1)])
    ensures PassesIn([Pass(0.0, 1, 1)], window / 2.0, window) == 0
  {
    var first := [Incr(0.0), Expire(0.0)];
    assert first[..1] == [Incr(0.0)] && [Incr(0.0)][..0] == [];
    assert Run([Incr(0.0)], max, window) == State(1, None, 1, [Pass(0.0, 1, 1)]);
  }

  /** A call on an expired key starts the count again. */
  lemma StartsAgain(events: seq<Event>, max: nat, window: real, now: real)
    requires max >= 1 && Run(events, max, window).Expired(now)
    ensures var s, t := Run(events, max, window), Run(events + [Incr(now)], max, window);
            && t.count == 1 && t.expiry == None && Appended(s.log, t.log, 1, now)
            && (forall from :: from <= now < from + window ==> PassesIn(t.log, from, window) == PassesIn(s.log, from, window) + 1)
  {}

  /** No smaller bound holds, for any limit and any window: `WindowBound` is exact. */
  lemma WindowBoundReached(max: nat, window: real)
    requires max >= 1 && window > 0.0
    ensures Ordered(Straddling(max, window))
    ensures PassesIn(Run(Straddling(max, window), max, window).log, window / 2.0, window) == 2 * max - 1
  {
    hide Run, PassesIn;
    var first := [Incr(0.0), Expire(0.0)];
    var second := first + Repeated(Incr(window / 2.0), max - 1);
    Opening(max, window);
    BurstPasses(first, max, window, window / 2.0, max - 1);
    StartsAgain(second, max, window, window);
    BurstPasses(second + [Incr(window)], max, window, window, max - 1);
  }

  /** A full limit at the beginning, and a full limit at the end. */
  function BothEnds(max: nat, window: real): seq<Event>
    requires max >= 1
  {
    [Incr(0.0), Expire(0.0)] + Repeated(Incr(0.0), max - 1) + [Incr(window)] + Repeated(Incr(window), max - 1)
  }

  lemma ClosedWindowBoundReached(max: nat, window: real)
    requires max >= 1 && window > 0.0
    ensures Ordered(BothEnds(max, window))
    ensures var log := Run(BothEnds(max, window), max, window).log;
            |log| == 2 * max && log[2 * max - 1].time == log[0].time + window
  {
    hide Run, PassesIn;
    var first := [Incr(0.0), Expire(0.0)];
    var second := first + Repeated(Incr(0.0), max - 1);
    Opening(max, window);
    BurstPasses(first, max, window, 0.0, max - 1);
    StartsAgain(second, max, window, window);
    BurstPasses(second + [Incr(window)], max, window, window, max - 1);
  }

  lemma {:induction false} NoWindowNoPasses(log: seq<Pass>, from: real, window: real)
    requires window <= 0.0
    ensures PassesIn(log, from, window) == 0
  {
    if log != [] {
      NoWindowNoPasses(log[..|log| - 1], from, window);
    }
  }

  /** The limit holds in every interval as long as the window, as a sliding window promises, exactly for a limit of
      at most 1 (or a window of no length). */
  lemma SlidingWindowExactly(max: nat, window: real)
    ensures (forall events, from :: Ordered(events) ==> PassesIn(Run(events, max, window).log, from, window) <= max)
       <==> max <= 1 || window <= 0.0
  {
    hide Run, PassesIn;
    forall events, from | Ordered(events) && (max <= 1 || window <= 0.0)
      ensures PassesIn(Run(events, max, window).log, from, window) <= max
    {
      WindowBound(events, max, window, from);
      if window <= 0.0 {
        NoWindowNoPasses(Run(events, max, window).log, from, window);
      }
    }
    if max > 1 && window > 0.0 {
      WindowBoundReached(max, window);
    }
  }

  lemma RunSnoc(events: seq<Event>, e: Event, max: nat, window: real)
    ensures Run(events + [e], max, window) == Step(Run(events, max, window), e, max, window)
  {
    assert (events + [e])[..|events + [e]| - 1] == events;
  }

  /** If the EXPIRE is never sent, the key stays: once the limit is used up, nobody passes again. */
  lemma {:induction false} LockedOut(events: seq<Event>, more: seq<Event>, max: nat, window: real)
    requires var s := Run(events, max, window); s.count >= max && s.count > 0 && s.expiry.None?
    requires forall e | e in more :: e.Incr?
    ensures var s, t := Run(events, max, window), Run(events + more, max, window);
            t.log == s.log && t.count == s.count + |more| && t.expiry.None?
  {
    if more == [] {
      assert events + more == events;
    } else {
      var last := |more| - 1;
      LockedOut(events, more[..last], max, window);
      assert (events + more)[..|events + more| - 1] == events + more[..last];
      assert (events + more)[|events + more| - 1] == more[last];
    }
  }

  /** A run to that state: every caller so far crashed before its EXPIRE, or came after one that did. */
  lemma {:induction false} CrashedCallers(max: nat, window: real, n: nat)
    ensures var s := Run(Repeated(Incr(0.0), n), max, window); s.count == n && s.expiry.None?
  {
    if n > 0 {
      CrashedCallers(max, window, n - 1);
      assert Repeated(Incr(0.0), n) == Repeated(Incr(0.0), n - 1) + [Incr(0.0)];
      RunSnoc(Repeated(Incr(0.0), n - 1), Incr(0.0), max, window);
    }
  }

  /** Some further calls, in order of time, of which one passes. */
  ghost predicate LetsPass(events: seq<Event>, more: seq<Event>, max: nat, window: real) {
    && Ordered(events + more) && (forall e | e in more :: e.Incr?)
    && Run(events + more, max, window).log != Run(events, max, window).log
  }

  /** A used-up key lets somebody pass again, without a further EXPIRE, if and only if its expiry is set. */
  lemma PassesAgainExactly(events: seq<Event>, max: nat, window: real)
    requires Ordered(events) && Run(events, max, window).count >= max > 0
    ensures (exists more :: LetsPass(events, more, max, window)) <==> Run(events, max, window).expiry.Some?
  {
    hide Run;
    var s := Run(events, max, window);
    if s.expiry.Some? {
      var last := if events == [] then 0.0 else events[|events| - 1].time;
      var call := Incr(if s.expiry.value > last then s.expiry.value else last);
      RunSnoc(events, call, max, window);
      assert LetsPass(events, [call], max, window);
    } else if more :| LetsPass(events, more, max, window) {
      LockedOut(events, more, max, window);
    }
  }

  /** The key in the store and the calls made on it. */
  class Limiter {
    const max: nat
    const window: real
    var count: nat
    var expiry: Option<real>
    ghost var life: nat
    ghost var log: seq<Pass>
    ghost var events: seq<Event>

    ghost predicate Valid() reads this {
      Run(events, max, window) == State(count, expiry, life, log)
    }

    constructor (max: nat, window: real)
      ensures Valid() && this.max == max && this.window == window && events == []
    {
      this.max, this.window := max, window;
      count, expiry, life, log, events := 0, None, 0, [], [];
    }

    method Increment(now: real) returns (value: nat)
      requires Valid()
      modifies this
      ensures Valid() && events == old(events) + [Incr(now)]
      ensures value == count > 0 && (value <= max <==> log != old(log))
      ensures value <= max ==> log == old(log) + [Pass(now, life, value)]
      ensures if old(count) == 0 || (old(expiry) != None && now >= old(expiry).value)
              then count == 1 && life == old(life) + 1 && expiry == if old(count) == 0 then old(expiry) else None
              else count == old(count) + 1 && life == old(life) && expiry == old(expiry)
    {
      hide Run;
      if count > 0 && expiry.Some? && now >= expiry.value {
        count, expiry := 0, None;
      }
      life := if count == 0 then life + 1 else life;
      count := count + 1;
      value := count;
      log := if value <= max then log + [Pass(now, life, value)] else log;
      events := events + [Incr(now)];
      RunSnoc(old(events), Incr(now), max, window);
    }

    method Arm(now: real)
      requires Valid()
      modifies this
      ensures Valid() && events == old(events) + [Expire(now)] && log == old(log) && count == old(count) && life == old(life)
      ensures expiry == if count > 0 && old(expiry) == None then Some(now + window) else old(expiry)
    {
      hide Run;
      if count > 0 && expiry.None? {
        expiry := Some(now + window);
      }
      events := events + [Expire(now)];
      RunSnoc(old(events), Expire(now), max, window);
    }

    /** One uninterrupted check; `false` is the 429. */
    method CheckRateLimit(now: real) returns (allowed: bool)
      requires Valid() && Ordered(events) && (events != [] ==> events[|events| - 1].time <= now)
      modifies this
      ensures Valid() && Ordered(events) && old(events) + [Incr(now)] <= events
      ensures allowed <==> log == old(log) + [Pass(now, life, count)]
      ensures !allowed ==> log == old(log) && count > max
      ensures if old(count) == 0 || (old(expiry) != None && now >= old(expiry).value)
              then count == 1 && (old(count) > 0 || old(expiry) == None ==> expiry == Some(now + window))
              else count == old(count) + 1 && expiry == old(expiry)
      ensures forall from :: PassesIn(log, from, window) <= if max == 0 then 0 else 2 * max - 1
    {
      hide Run, PassesIn;
      var value := Increment(now);
      if value == 1 {
        Arm(now);
      }
      allowed := value <= max;
      forall from ensures PassesIn(log, from, window) <= if max == 0 then 0 else 2 * max - 1 {
        WindowBound(events, max, window, from);
      }
    }
  }
}
