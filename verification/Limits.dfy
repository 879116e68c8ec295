/**
 The poll throttle: a host may ask for its desired state once per interval. Entries of
 hosts not heard of for long are swept, and a host that is still polling should not notice.

 Times are nanoseconds of one monotonic clock.
 */
module PollLimits {
  import opened JsonModel

  const SECOND := 1_000_000_000
  const PRUNE_EVERY := 512
  const LAST_POLL_TTL_SECS := 3_600
  const TWO_32 := 0x1_0000_0000

  type Table = map<string, int>

  /** Whole seconds from `prev` to `now`; zero when the clock reads earlier. */
  function Age(prev: int, now: int): nat {
    if now <= prev then 0 else (now - prev) / SECOND
  }

  /** `duration_since(prev).as_secs() as u32`: the age cut to 32 bits. */
  function Elapsed(prev: int, now: int): nat {
    Age(prev, now) % TWO_32
  }

  /** The seconds left to wait, or `None` for an accepted poll. */
  function Wait(t: Table, host: string, now: int, interval: nat): Option<nat> {
    if host in t && Elapsed(t[host], now) < interval then Some(interval - Elapsed(t[host], now)) else None
  }

  function AfterPoll(t: Table, host: string, now: int, interval: nat): Table {
    if Wait(t, host, now, interval).None? then t[host := now] else t
  }

  function AfterPrune(t: Table, now: int): Table {
    map h | h in t && t[h] > now - LAST_POLL_TTL_SECS * SECOND :: t[h]
  }

  class AgentRateLimits {
    var lastPoll: Table
    var sincePrune: nat

    constructor ()
      ensures lastPoll == map[] && sincePrune == 0
    {
      lastPoll, sincePrune := map[], 0;
    }

    method Prune(now: int)
      modifies `lastPoll
      ensures lastPoll == AfterPrune(old(lastPoll), now)
    {
      var cutoff := now - LAST_POLL_TTL_SECS * SECOND;
      lastPoll := map h | h in lastPoll && lastPoll[h] > cutoff :: lastPoll[h];
    }

    /** Every `PRUNE_EVERY`th call sweeps. */
    method MaybePrune(now: int)
      requires sincePrune < PRUNE_EVERY
      modifies this
      ensures sincePrune == (old(sincePrune) + 1) % PRUNE_EVERY
      ensures lastPoll == if sincePrune == 0 then AfterPrune(old(lastPoll), now) else old(lastPoll)
    {
      sincePrune := sincePrune + 1;
      if sincePrune >= PRUNE_EVERY {
        sincePrune := 0;
        Prune(now);
      }
    }

    method CheckPollInterval(host: string, interval: nat, now: int) returns (wait: Option<nat>)
      modifies `lastPoll
      ensures wait == Wait(old(lastPoll), host, now, interval)
      ensures lastPoll == AfterPoll(old(lastPoll), host, now, interval)
    {
      if host in lastPoll {
        var elapsed := Elapsed(lastPoll[host], now);
        if elapsed < interval {
          return Some(interval - elapsed);
        }
      }
      lastPoll := lastPoll[host := now];
      wait := None;
    }
  }

  // ---- Runs ----

  datatype Event = Poll(host: string, now: int, interval: nat) | Sweep(now: int)

  function After(t: Table, e: Event): Table {
    match e
    case Poll(host, now, interval) => AfterPoll(t, host, now, interval)
    case Sweep(now) => AfterPrune(t, now)
  }

  function Run(t: Table, events: seq<Event>): Table
    decreases |events|
  {
    if events == [] then t else Run(After(t, events[0]), events[1..])
  }

  /** What each poll of a run is told; sweeps say nothing. */
  function Answers(t: Table, events: seq<Event>): seq<Option<nat>>
    decreases |events|
  {
    if events == [] then []
    else
      var e := events[0];
      (if e.Poll? then [Wait(t, e.host, e.now, e.interval)] else []) + Answers(After(t, e), events[1..])
  }

  function Unswept(events: seq<Event>): seq<Event> {
    if events == [] then [] else (if events[0].Poll? then [events[0]] else []) + Unswept(events[1..])
  }

  predicate SweepFree(events: seq<Event>) {
    forall i :: 0 <= i < |events| ==> events[i].Poll?
  }

  // ---- When sweeping is invisible ----

  /** A sweep that reads `now` drops an entry of `prev`. */
  predicate Stale(prev: int, now: int) {
    prev <= now - LAST_POLL_TTL_SECS * SECOND
  }

  /**
   Polls and sweeps read the clock before they take the lock, so the one that comes first may
   have read it later: here no sweep reads more than `slack` beyond a poll that follows it.
   Nothing is asked of the order in which polls read it.
   */
  predicate Within(events: seq<Event>, slack: nat) {
    forall i, j :: 0 <= i < j < |events| && events[i].Sweep? && events[j].Poll? ==>
      events[i].now <= events[j].now + slack
  }

  /** The earliest reading among the events. */
  function Earliest(events: seq<Event>): (r: int)
    requires events != []
    ensures exists k :: 0 <= k < |events| && events[k].now == r
    ensures forall k :: 0 <= k < |events| ==> r <= events[k].now
  {
    if |events| == 1 then events[0].now
    else
      var rest := Earliest(events[1..]);
      assert forall k :: 1 <= k < |events| ==> events[k] == events[1..][k - 1];
      if events[0].now <= rest then events[0].now else rest
  }

  /** The first poll waits on account of an entry that a sweep just before could drop. */
  predicate FirstIsHeld(t: Table, polls: seq<Event>, slack: nat) {
    && polls != [] && polls[0].Poll?
    && Wait(t, polls[0].host, polls[0].now, polls[0].interval).Some?
    && Stale(t[polls[0].host], Earliest(polls) + slack)
  }

  /** No poll of the run, answered in turn, does. */
  predicate NoneHeld(t: Table, polls: seq<Event>, slack: nat)
    decreases |polls|
  {
    polls == [] || (!FirstIsHeld(t, polls, slack) && NoneHeld(After(t, polls[0]), polls[1..], slack))
  }

  /** A sweep before all the polls of `events` may drop an entry of `prev`. */
  predicate Droppable(prev: int, events: seq<Event>, slack: nat) {
    forall j :: 0 <= j < |events| && events[j].Poll? ==> Stale(prev, events[j].now + slack)
  }

  /** `swept` is `full` without some entries that a sweep may drop. */
  predicate SweptFrom(swept: Table, full: Table, events: seq<Event>, slack: nat) {
    && swept.Keys <= full.Keys
    && (forall h :: h in swept ==> swept[h] == full[h])
    && (forall h :: h in full && h !in swept ==> Droppable(full[h], events, slack))
  }

  lemma DroppableLater(prev: int, events: seq<Event>, slack: nat)
    requires events != [] && Droppable(prev, events, slack)
    ensures Droppable(prev, events[1..], slack)
  {
    hide Stale;
    assert forall j :: 0 <= j < |events[1..]| ==> events[1..][j] == events[j + 1];
  }

  lemma {:induction false} UnsweptAreEvents(events: seq<Event>)
    ensures forall e :: e in Unswept(events) ==> e in events && e.Poll?
  {
    if events == [] {
    } else {
      UnsweptAreEvents(events[1..]);
    }
  }

  lemma DroppableByEarliest(prev: int, events: seq<Event>, slack: nat)
    requires Unswept(events) != [] && Droppable(prev, events, slack)
    ensures Stale(prev, Earliest(Unswept(events)) + slack)
  {
    hide Unswept, Stale;
    UnsweptAreEvents(events);
    var polls := Unswept(events);
    var k :| 0 <= k < |polls| && polls[k].now == Earliest(polls);
    assert polls[k] in polls;
    var j :| 0 <= j < |events| && events[j] == polls[k];
  }

  /** A droppable entry does not hold the first poll when none is held. */
  lemma DroppableDoesNotHold(full: Table, events: seq<Event>, slack: nat)
    requires events != [] && events[0].Poll? && !FirstIsHeld(full, Unswept(events), slack)
    requires events[0].host in full && Droppable(full[events[0].host], events, slack)
    ensures Wait(full, events[0].host, events[0].now, events[0].interval) == None
  {
    hide Wait, Earliest, Stale, Unswept, Droppable;
    var polls := Unswept(events);
    UnsweptHead(events);
    assert polls[0] == events[0];
    DroppableByEarliest(full[events[0].host], events, slack);
  }

  lemma PollSeesTheSame(swept: Table, full: Table, events: seq<Event>, slack: nat)
    requires events != [] && events[0].Poll? && SweptFrom(swept, full, events, slack)
    requires !FirstIsHeld(full, Unswept(events), slack)
    ensures var e := events[0];
      && Wait(swept, e.host, e.now, e.interval) == Wait(full, e.host, e.now, e.interval)
      && SweptFrom(After(swept, e), After(full, e), events[1..], slack)
  {
    hide Elapsed, Droppable, FirstIsHeld;
    var e := events[0];
    forall h | h in full && h !in swept ensures Droppable(full[h], events[1..], slack) {
      DroppableLater(full[h], events, slack);
    }
    if e.host in full && e.host !in swept {
      DroppableDoesNotHold(full, events, slack);
    }
  }

  lemma SweepDropsDroppable(swept: Table, full: Table, events: seq<Event>, slack: nat)
    requires events != [] && events[0].Sweep? && Within(events, slack) && SweptFrom(swept, full, events, slack)
    ensures SweptFrom(After(swept, events[0]), full, events[1..], slack)
  {
    assert forall j :: 0 <= j < |events[1..]| ==> events[1..][j] == events[j + 1];
    forall h | h in full && h !in swept ensures Droppable(full[h], events[1..], slack) {
      DroppableLater(full[h], events, slack);
    }
  }

  lemma WithinLater(events: seq<Event>, slack: nat)
    requires events != [] && Within(events, slack)
    ensures Within(events[1..], slack)
  {
    assert forall j :: 0 <= j < |events[1..]| ==> events[1..][j] == events[j + 1];
  }

  lemma UnsweptHead(events: seq<Event>)
    requires events != []
    ensures events[0].Poll? ==> Unswept(events) == [events[0]] + Unswept(events[1..])
    ensures events[0].Sweep? ==> Unswept(events) == Unswept(events[1..])
  {
    assert [] + Unswept(events[1..]) == Unswept(events[1..]);
  }

  lemma AnswersHead(t: Table, events: seq<Event>)
    requires events != []
    ensures events[0].Sweep? ==> Answers(t, events) == Answers(After(t, events[0]), events[1..])
    ensures events[0].Poll? ==>
            Answers(t, events) ==
            [Wait(t, events[0].host, events[0].now, events[0].interval)] + Answers(After(t, events[0]), events[1..])
  {
    hide Wait;
    assert [] + Answers(After(t, events[0]), events[1..]) == Answers(After(t, events[0]), events[1..]);
  }

  lemma {:induction false} SameAnswers(swept: Table, full: Table, events: seq<Event>, slack: nat)
    requires Within(events, slack) && SweptFrom(swept, full, events, slack) && NoneHeld(full, Unswept(events), slack)
    ensures Answers(swept, events) == Answers(full, Unswept(events))
    decreases |events|
  {
    if events == [] {
    } else {
      hide Wait, Within, SweptFrom, FirstIsHeld;
      var e, rest := events[0], events[1..];
      UnsweptHead(events);
      AnswersHead(swept, events);
      WithinLater(events, slack);
      if e.Poll? {
        assert Unswept(events)[0] == e && Unswept(events)[1..] == Unswept(rest);
        PollSeesTheSame(swept, full, events, slack);
        AnswersHead(full, Unswept(events));
        SameAnswers(After(swept, e), After(full, e), rest, slack);
      } else {
        SweepDropsDroppable(swept, full, events, slack);
        SameAnswers(After(swept, e), full, rest, slack);
      }
    }
  }

  lemma {:induction false} UnsweptOfSweepFree(polls: seq<Event>)
    requires SweepFree(polls)
    ensures Unswept(polls) == polls
  {
    if polls == [] {
    } else {
      assert forall i :: 0 <= i < |polls[1..]| ==> polls[1..][i] == polls[i + 1];
      UnsweptOfSweepFree(polls[1..]);
      assert polls == [polls[0]] + polls[1..];
    }
  }

  /** `events` is the run `polls` with sweeps put in. */
  predicate Places(events: seq<Event>, polls: seq<Event>, slack: nat) {
    Within(events, slack) && Unswept(events) == polls
  }

  lemma SweepWithin(s: Event, polls: seq<Event>, slack: nat)
    requires SweepFree(polls) && s.Sweep? && forall k :: 0 <= k < |polls| ==> s.now <= polls[k].now + slack
    ensures Within([s] + polls, slack)
  {
    var events := [s] + polls;
    assert forall j :: 1 <= j < |events| ==> events[j] == polls[j - 1];
  }

  lemma PlacedFirst(polls: seq<Event>, slack: nat)
    requires SweepFree(polls) && polls != []
    ensures Places([Sweep(Earliest(polls) + slack)] + polls, polls, slack)
  {
    hide Within, Unswept;
    var s := Sweep(Earliest(polls) + slack);
    SweepWithin(s, polls, slack);
    assert ([s] + polls)[1..] == polls;
    UnsweptHead([s] + polls);
    UnsweptOfSweepFree(polls);
  }

  lemma SweepingFirst(t: Table, polls: seq<Event>, slack: nat)
    requires SweepFree(polls) && FirstIsHeld(t, polls, slack)
    ensures Answers(t, [Sweep(Earliest(polls) + slack)] + polls) != Answers(t, polls)
  {
    hide Answers, Earliest, Elapsed;
    var s := Sweep(Earliest(polls) + slack);
    assert ([s] + polls)[1..] == polls;
    AnswersHead(t, [s] + polls);
    AnswersHead(t, polls);
    AnswersHead(After(t, s), polls);
    assert Answers(After(t, s), polls)[0] == None && Answers(t, polls)[0].Some?;
  }

  lemma PlaceLater(e: Event, rest: seq<Event>, polls: seq<Event>, slack: nat)
    requires e.Poll? && Places(rest, polls, slack)
    ensures Places([e] + rest, [e] + polls, slack)
  {
    var events := [e] + rest;
    assert events[1..] == rest && forall j :: 1 <= j < |events| ==> events[j] == rest[j - 1];
    UnsweptHead(events);
  }

  /** A sweep just before a poll that is held shows. */
  lemma {:induction false} ASweepShows(t: Table, polls: seq<Event>, slack: nat) returns (events: seq<Event>)
    requires SweepFree(polls) && !NoneHeld(t, polls, slack)
    ensures Places(events, polls, slack) && Answers(t, events) != Answers(t, polls)
    decreases |polls|
  {
    hide Wait, FirstIsHeld, Places;
    if FirstIsHeld(t, polls, slack) {
      SweepingFirst(t, polls, slack);
      PlacedFirst(polls, slack);
      events := [Sweep(Earliest(polls) + slack)] + polls;
    } else {
      var e := polls[0];
      assert forall i :: 0 <= i < |polls[1..]| ==> polls[1..][i] == polls[i + 1];
      var rest := ASweepShows(After(t, e), polls[1..], slack);
      events := [e] + rest;
      PlaceLater(e, rest, polls[1..], slack);
      assert events[1..] == rest && polls == [e] + polls[1..];
      AnswersHead(t, events);
      AnswersHead(t, polls);
      assert Answers(t, events)[1..] == Answers(After(t, e), rest);
      assert Answers(t, polls)[1..] == Answers(After(t, e), polls[1..]);
    }
  }

  /** Sweeps, wherever they fall in a run of polls, are invisible if and only if a table that
      is never swept makes no poll wait on an entry that a sweep just before could drop. */
  lemma SweepingIsInvisibleIff(t: Table, polls: seq<Event>, slack: nat)
    requires SweepFree(polls)
    ensures NoneHeld(t, polls, slack) <==>
            forall events :: Places(events, polls, slack) ==> Answers(t, events) == Answers(t, polls)
  {
    hide NoneHeld, Answers;
    if NoneHeld(t, polls, slack) {
      forall events | Places(events, polls, slack) ensures Answers(t, events) == Answers(t, polls) {
        SameAnswers(t, t, events, slack);
      }
    } else {
      var events := ASweepShows(t, polls, slack);
      assert Places(events, polls, slack);
    }
  }

  /** No entry is so old that its age needs more than 32 bits before `end`. */
  predicate Young(t: Table, end: int) {
    forall h :: h in t ==> end - t[h] < TWO_32 * SECOND
  }

  /** Every poll reads the clock between `start` and `end`, and no interval reaches into the
      hour an entry is kept, less the slack. */
  predicate Short(events: seq<Event>, start: int, end: int, slack: nat) {
    forall i :: 0 <= i < |events| && events[i].Poll? ==>
      start <= events[i].now <= end && events[i].interval * SECOND + slack <= LAST_POLL_TTL_SECS * SECOND
  }

  lemma StaleDoesNotHold(prev: int, now: int, bound: int, interval: nat, slack: nat)
    requires interval * SECOND + slack <= LAST_POLL_TTL_SECS * SECOND
    requires Stale(prev, bound) && bound <= now + slack && now - prev < TWO_32 * SECOND
    ensures Elapsed(prev, now) >= interval
  {
    assert now - prev >= interval * SECOND;
    if now > prev {
      assert interval <= Age(prev, now) < TWO_32;
    }
  }

  lemma {:induction false} YoungEntriesHoldNone(t: Table, polls: seq<Event>, start: int, end: int, slack: nat)
    requires SweepFree(polls) && Short(polls, start, end, slack)
    requires Young(t, end) && end - start < TWO_32 * SECOND
    ensures NoneHeld(t, polls, slack)
    decreases |polls|
  {
    if polls == [] {
    } else {
      hide Elapsed;
      var e := polls[0];
      assert forall i :: 0 <= i < |polls[1..]| ==> polls[1..][i] == polls[i + 1];
      if e.host in t && Stale(t[e.host], Earliest(polls) + slack) {
        StaleDoesNotHold(t[e.host], e.now, Earliest(polls) + slack, e.interval, slack);
      }
      YoungEntriesHoldNone(After(t, e), polls[1..], start, end, slack);
    }
  }

  /** So sweeps are invisible in every run of less than 2^32 seconds in which no interval comes
      within the slack of the hour an entry is kept. */
  lemma SweepingIsInvisible(t: Table, events: seq<Event>, start: int, end: int, slack: nat)
    requires Within(events, slack) && Short(events, start, end, slack)
    requires Young(t, end) && end - start < TWO_32 * SECOND
    ensures Answers(t, events) == Answers(t, Unswept(events))
  {
    UnsweptAreEvents(events);
    YoungEntriesHoldNone(t, Unswept(events), start, end, slack);
    SameAnswers(t, t, events, slack);
  }

  /** A single poll of a swept and an unswept table. */
  lemma SweepThenPoll(t: Table, now: int, e: Event)
    requires e.Poll? && e.host in t && Stale(t[e.host], now)
    ensures Answers(t, [Sweep(now), e]) == [None]
    ensures Answers(t, Unswept([Sweep(now), e])) == [Wait(t, e.host, e.now, e.interval)]
  {
    hide Elapsed;
    var s := Sweep(now);
    assert [s, e][1..] == [e] && [e][1..] == [];
    UnsweptHead([s, e]);
    UnsweptHead([e]);
    AnswersHead(t, [s, e]);
    AnswersHead(After(t, s), [e]);
    AnswersHead(t, [e]);
  }

  /** A sweep shows after 2^32 seconds, when an old entry looks young again. */
  lemma SweepShowsAfterTheWrap()
    ensures var t, e := map["h" := 0], Poll("h", TWO_32 * SECOND, 60);
      Answers(t, [Sweep(e.now), e]) == [None] && Answers(t, Unswept([Sweep(e.now), e])) == [Some(60)]
  {
    assert Age(0, TWO_32 * SECOND) == TWO_32;
    SweepThenPoll(map["h" := 0], TWO_32 * SECOND, Poll("h", TWO_32 * SECOND, 60));
  }

  /** And long before, for a tenant whose interval is overridden to more than an hour. */
  lemma SweepShowsForALongInterval()
    ensures var t, e := map["h" := 0], Poll("h", 4_000 * SECOND, 7_200);
      Answers(t, [Sweep(e.now), e]) == [None] && Answers(t, Unswept([Sweep(e.now), e])) == [Some(3_200)]
  {
    assert Age(0, 4_000 * SECOND) == 4_000;
    SweepThenPoll(map["h" := 0], 4_000 * SECOND, Poll("h", 4_000 * SECOND, 7_200));
  }

  /** At an interval of an hour it shows as soon as a sweep overtakes a poll by a nanosecond. */
  lemma SweepShowsOutOfOrder()
    ensures var t, s, e := map["h" := 0], Sweep(3_600 * SECOND), Poll("h", 3_600 * SECOND - 1, 3_600);
      Answers(t, [s, e]) == [None] && Answers(t, Unswept([s, e])) == [Some(1)]
  {
    assert Age(0, 3_600 * SECOND - 1) == 3_599;
    SweepThenPoll(map["h" := 0], 3_600 * SECOND, Poll("h", 3_600 * SECOND - 1, 3_600));
  }

  // ---- Spacing ----

  /** The clock never goes back, from `start` to `end`. */
  predicate Timely(events: seq<Event>, start: int, end: int)
    decreases |events|
  {
    events == [] || (start <= events[0].now <= end && Timely(events[1..], events[0].now, end))
  }

  predicate Accepted(t: Table, events: seq<Event>, j: nat)
    requires j < |events|
  {
    var e := events[j];
    e.Poll? && Wait(Run(t, events[..j]), e.host, e.now, e.interval).None?
  }

  /** The poll accepted at `at` is still remembered, or was long enough ago to be swept. */
  predicate Remembered(t: Table, host: string, at: int, now: int, swept: bool) {
    (host in t && at <= t[host] <= now) || (swept && Stale(at, now))
  }

  /** The spacing that sweeps leave of an interval. */
  function Spacing(interval: nat, swept: bool): nat {
    if swept && interval > LAST_POLL_TTL_SECS then LAST_POLL_TTL_SECS else interval
  }

  lemma AgeBounds(prev: int, now: int, interval: nat)
    requires Elapsed(prev, now) >= interval
    ensures interval == 0 || now - prev >= interval * SECOND
  {
    assert Age(prev, now) >= Elapsed(prev, now);
  }

  lemma {:induction false} SpacedFromThen(t: Table, events: seq<Event>, host: string, at: int,
                                          start: int, end: int, swept: bool, j: nat)
    requires Timely(events, start, end) && (swept || SweepFree(events))
    requires Remembered(t, host, at, start, swept) && at <= start
    requires j < |events| && events[j].Poll? && events[j].host == host && Accepted(t, events, j)
    ensures events[j].now - at >= Spacing(events[j].interval, swept) * SECOND
    decreases |events|
  {
    var e := events[0];
    if j == 0 {
      assert events[..0] == [];
      if host in t && at <= t[host] {
        AgeBounds(t[host], e.now, e.interval);
      }
    } else {
      hide Elapsed;
      assert events[..j][1..] == events[1..][..j - 1] && events[..j][0] == e;
      assert forall i :: 0 <= i < |events[1..]| ==> events[1..][i] == events[i + 1];
      assert Remembered(After(t, e), host, at, e.now, swept);
      SpacedFromThen(After(t, e), events[1..], host, at, e.now, end, swept, j - 1);
    }
  }

  /** Accepted polls of one host are at least the later poll's interval apart, however long
      the run; where there are sweeps, at least an hour of it. */
  lemma {:induction false} AcceptedPollsAreSpaced(t: Table, events: seq<Event>, start: int, end: int,
                                                  swept: bool, i: nat, j: nat)
    requires Timely(events, start, end) && (swept || SweepFree(events)) && i < j < |events|
    requires Accepted(t, events, i) && Accepted(t, events, j) && events[i].host == events[j].host
    ensures events[j].now - events[i].now >= Spacing(events[j].interval, swept) * SECOND
    decreases |events|
  {
    hide Elapsed;
    var e := events[0];
    assert events[..j][1..] == events[1..][..j - 1] && events[..j][0] == e;
    assert forall k :: 0 <= k < |events[1..]| ==> events[1..][k] == events[k + 1];
    if i == 0 {
      assert events[..0] == [];
      assert After(t, e) == t[e.host := e.now];
      SpacedFromThen(After(t, e), events[1..], e.host, e.now, e.now, end, swept, j - 1);
    } else {
      assert events[..i][1..] == events[1..][..i - 1] && events[..i][0] == e;
      AcceptedPollsAreSpaced(After(t, e), events[1..], e.now, end, swept, i - 1, j - 1);
    }
  }

  // ---- Waiting ----

  predicate NoPollOf(events: seq<Event>, host: string) {
    forall i :: 0 <= i < |events| ==> !(events[i].Poll? && events[i].host == host)
  }

  /** Some sweep of the run drops an entry of `prev`. */
  predicate SweptAway(events: seq<Event>, prev: int) {
    exists i :: 0 <= i < |events| && events[i].Sweep? && Stale(prev, events[i].now)
  }

  lemma SweptAwayStep(events: seq<Event>, prev: int)
    requires events != []
    ensures SweptAway(events, prev) <==>
            (events[0].Sweep? && Stale(prev, events[0].now)) || SweptAway(events[1..], prev)
  {
    hide Stale;
    var rest := events[1..];
    assert forall i :: 0 <= i < |rest| ==> rest[i] == events[i + 1];
    if SweptAway(events, prev) {
      var i :| 0 <= i < |events| && events[i].Sweep? && Stale(prev, events[i].now);
      assert i == 0 || rest[i - 1] == events[i];
    }
    if SweptAway(rest, prev) {
      var i :| 0 <= i < |rest| && rest[i].Sweep? && Stale(prev, rest[i].now);
      assert events[i + 1] == rest[i];
    }
  }

  /** Only a sweep takes an entry its own host does not touch. */
  lemma {:induction false} OthersKeepTheEntry(t: Table, events: seq<Event>, host: string)
    requires NoPollOf(events, host)
    ensures host !in t ==> host !in Run(t, events)
    ensures host in t ==> (host in Run(t, events) <==> !SweptAway(events, t[host]))
    ensures host in Run(t, events) ==> Run(t, events)[host] == t[host]
    decreases |events|
  {
    if events == [] {
    } else {
      hide Elapsed, SweptAway;
      assert forall i :: 0 <= i < |events[1..]| ==> events[1..][i] == events[i + 1];
      if host in t {
        SweptAwayStep(events, t[host]);
      }
      OthersKeepTheEntry(After(t, events[0]), events[1..], host);
    }
  }

  /**
   A host that was told to wait, and waited that long, is accepted if and only if its entry
   was swept away meanwhile or the clock does not read, counting from the recorded poll,
   within the interval after a multiple of 2^32 seconds. It does not before 2^32 seconds,
   unless the recorded poll read a later clock than the one that was told to wait, as when
   two polls race for the lock.
   */
  lemma WaitingItOutSucceeds(t: Table, host: string, interval: nat, now: int, between: seq<Event>, later: int)
    requires Wait(t, host, now, interval).Some? && NoPollOf(between, host)
    requires later >= now + Wait(t, host, now, interval).value * SECOND
    ensures Wait(Run(t, between), host, later, interval).None? <==>
            SweptAway(between, t[host]) || Age(t[host], later) % TWO_32 >= interval
    ensures t[host] <= now && later - t[host] < TWO_32 * SECOND ==> Age(t[host], later) % TWO_32 >= interval
  {
    OthersKeepTheEntry(t, between, host);
    var prev := t[host];
    var left := Wait(t, host, now, interval).value;
    if prev <= now && later - prev < TWO_32 * SECOND {
      assert Age(prev, now) < TWO_32;
      LongEnough(prev, prev + Age(prev, now) * SECOND, later, left);
    }
  }

  lemma LongEnough(prev: int, from: int, later: int, secs: nat)
    requires prev <= from && (from - prev) % SECOND == 0
    requires later >= from + secs * SECOND && later - prev < TWO_32 * SECOND
    ensures Elapsed(prev, later) >= (from - prev) / SECOND + secs
  {
    var n := (from - prev) / SECOND;
    assert from - prev == n * SECOND;
    assert later - prev >= (n + secs) * SECOND;
    assert Age(prev, later) >= n + secs;
  }

  /** Told to wait a minute at time zero, asking again after 2^32 seconds: told to wait again. */
  lemma WaitingTooLongFails()
    ensures var t := map["h" := 0];
      Wait(t, "h", 0, 60) == Some(60) && Wait(Run(t, []), "h", TWO_32 * SECOND, 60) == Some(60)
  {
    assert Age(0, 0) == 0 && Age(0, TWO_32 * SECOND) == TWO_32;
  }
}
