/** What a cached read guarantees over every sequence of events. */
module QueryGuarantees {
  import opened QueryRecord

  /**
   The ETag cache refines a plain GET: the data is the payload the server had when it answered the last successful read (and
   nothing before any), and the tag is that payload's tag.
  */
  lemma CacheIsPlainGet(hidden: bool, events: seq<Event>)
    requires Valid(hidden, events)
    ensures var r, g := After(hidden, events).record, After(hidden, events).ledger;
            match g.lastGood
            case None => r.state.data.None? && r.etag.None? && r.readVersion == 0
            case Some(v) => v in g.versions && r.state.data == Some(v.data) && r.etag == Some(TagOf(v))
  {
    InvHolds(hidden, events);
  }

  /** The version a good read is compared with is the one that was current when the server answered. */
  lemma AnsweredAsOfCurrent(hidden: bool, events: seq<Event>, a: Answer)
    requires Valid(hidden, events) && Enabled(After(hidden, events), Serve(a)) && !a.Failure?
    ensures var m := After(hidden, events);
            Next(m, Serve(a)).record.flight.value.asOf == Some(Current(m.ledger))
            && (a.NotModified? ==> m.record.etag == Some(TagOf(Current(m.ledger)))
                                   && m.record.state.data == Some(Current(m.ledger).data))
  {
    InvHolds(hidden, events);
    var m := After(hidden, events);
    if a.NotModified? {
      assert m.ledger.lastGood.Some?;
      SameTagSameData(m.ledger.versions, m.ledger.lastGood.value, Current(m.ledger));
    }
  }

  /** An aborted read ends without a trace in data, provenance, tag, error or read version, whatever the server sent. */
  lemma AbortedReadIsInert(m: Machine, e: Event)
    requires Enabled(m, e) && Ends(e) && m.record.flight.value.aborted
    ensures SameRead(Next(m, e).record, m.record) && Next(m, e).record.state.error == m.record.state.error
  {
    SettleKeepsRead(m.record, m.hidden, m.now);
  }

  /** A read version rises only with a read that was not aborted, by one. */
  lemma OnlyGoodReadsCount(m: Machine, e: Event)
    requires Enabled(m, e) && Next(m, e).record.readVersion != m.record.readVersion
    ensures Ends(e) && m.record.flight.Some? && !m.record.flight.value.aborted
    ensures Next(m, e).record.readVersion == m.record.readVersion + 1
    ensures Next(m, e).ledger.lastGoodStart == m.record.flight.value.started
  {
    if Ends(e) {
      if m.record.flight.value.aborted { AbortedReadIsInert(m, e); }
    }
  }

  /** Out of sight or without listeners, no timer is armed and any read in flight is aborted. */
  lemma Quiescence(hidden: bool, events: seq<Event>)
    requires Valid(hidden, events)
    requires After(hidden, events).hidden || After(hidden, events).record.listeners == map[]
    ensures After(hidden, events).record.timer.Off?
    ensures After(hidden, events).record.flight.Some? ==> After(hidden, events).record.flight.value.aborted
  {
    InvHolds(hidden, events);
  }

  // ---- No lost invalidation ----

  lemma {:induction false} ClockCounts(hidden: bool, events: seq<Event>)
    ensures After(hidden, events).now == 1 + |events|
    decreases |events|
  {
    if events != [] { ClockCounts(hidden, events[..|events| - 1]); }
  }

  /** Somebody listened at every moment after the first `k` events. */
  ghost predicate HeardSince(hidden: bool, events: seq<Event>, k: nat)
    decreases |events|
  {
    |events| <= k || (After(hidden, events).record.listeners != map[] && HeardSince(hidden, events[..|events| - 1], k))
  }

  lemma {:induction false} DemandIsKept(hidden: bool, events: seq<Event>, k: nat)
    requires Valid(hidden, events) && k < |events| && HeardSince(hidden, events, k)
    requires Asks(After(hidden, events[..k]).record, events[k])
    ensures After(hidden, events).ledger.demand >= 1 + k
    decreases |events|
  {
    var front := events[..|events| - 1];
    ClockCounts(hidden, front);
    if k < |front| {
      assert front[..k] == events[..k];
      DemandIsKept(hidden, front, k);
    } else {
      assert front == events[..k];
    }
  }

  /**
   No lost invalidation: a refresh asked for at some moment, of a record that keeps a listener, is answered. Whenever later the
   tab is visible and no read is in flight, a read has started at that moment or after it.
  */
  lemma NoLostInvalidation(hidden: bool, events: seq<Event>, k: nat)
    requires Valid(hidden, events) && k < |events| && HeardSince(hidden, events, k)
    requires (events[k].Invalidate? || events[k].Show?) && After(hidden, events[..k]).record.listeners != map[]
    requires !After(hidden, events).hidden && After(hidden, events).record.flight.None?
    ensures After(hidden, events).ledger.lastStart >= 1 + k
  {
    DemandIsKept(hidden, events, k);
    InvHolds(hidden, events);
    assert After(hidden, events).record.listeners != map[];
  }

  // ---- Polling ----

  predicate Positive(i: Interval) {
    i.Millis? && i.ms > 0
  }

  ghost predicate PollOk(m: Machine) {
    && (forall l :: l in m.record.listeners ==> Positive(m.record.listeners[l]))
    && (!m.hidden && m.record.listeners != map[] && m.record.flight.None? ==> m.record.timer.Armed?)
  }

  lemma PositivePolls(r: Record)
    requires r.listeners != map[] && forall l :: l in r.listeners ==> Positive(r.listeners[l])
    ensures Schedule(r, false).timer.Armed?
  {
    var l :| l in r.listeners;
    assert r.listeners[l].Millis?;
  }

  lemma SettlePolls(r: Record, hidden: bool, now: nat)
    requires r.flight.Some? && forall l :: l in r.listeners ==> Positive(r.listeners[l])
    ensures var q := Settle(r, hidden, now);
            q.listeners == r.listeners && (!hidden && q.listeners != map[] && q.flight.None? ==> q.timer.Armed?)
  {
    if !hidden && r.listeners != map[] { PositivePolls(r); }
  }

  lemma EventKeepsPolling(m: Machine, e: Event)
    requires Enabled(m, e) && PollOk(m) && (e.Subscribe? ==> Positive(e.interval))
    ensures PollOk(Next(m, e))
  {
    var r := Served(m.record, m.ledger, e);
    match e {
      case Subscribe(l, i) =>
        var q := r.(listeners := r.listeners[l := i]);
        assert l in q.listeners;
        PositivePolls(q);
      case Arrive => EndKeepsPolling(m, e);
      case Body(_) => EndKeepsPolling(m, e);
      case NetworkFails(_) => EndKeepsPolling(m, e);
      case AbortSettles => EndKeepsPolling(m, e);
      case _ =>
    }
  }

  lemma EndKeepsPolling(m: Machine, e: Event)
    requires Enabled(m, e) && PollOk(m) && Ends(e)
    ensures PollOk(Next(m, e))
  {
    if !GoesOn(m, e) {
      EndIsSettle(m, e);
      SettlePolls(Ended(m, e), m.hidden, m.now);
      hide Settle, Step, Ended;
    }
  }

  /** Polling never stops: with positive finite intervals, a visible record with a listener and no read in flight has its timer armed. */
  lemma {:induction false} PollingGoesOn(hidden: bool, events: seq<Event>)
    requires Valid(hidden, events)
    requires forall k :: 0 <= k < |events| && events[k].Subscribe? ==> Positive(events[k].interval)
    ensures PollOk(After(hidden, events))
    decreases |events|
  {
    if events != [] {
      PollingGoesOn(hidden, events[..|events| - 1]);
      EventKeepsPolling(After(hidden, events[..|events| - 1]), events[|events| - 1]);
    }
  }

  // Whether polling goes on is decided by the intervals of the listeners.

  /** The timer is armed wherever it should be: visible, listened to, and idle. */
  predicate TimerArmed(m: Machine) {
    !m.hidden && m.record.listeners != map[] && m.record.flight.None? ==> m.record.timer.Armed?
  }

  ghost predicate Uses(events: seq<Event>, intervals: set<Interval>) {
    forall k :: 0 <= k < |events| && events[k].Subscribe? ==> events[k].interval in intervals
  }

  /** Polling never stops in any run whose listeners have these intervals. */
  ghost predicate PollsAlways(intervals: set<Interval>) {
    forall hidden, events :: Valid(hidden, events) && Uses(events, intervals) ==> TimerArmed(After(hidden, events))
  }

  lemma Then(hidden: bool, events: seq<Event>, e: Event)
    requires Valid(hidden, events) && Enabled(After(hidden, events), e)
    ensures Valid(hidden, events + [e]) && After(hidden, events + [e]) == Next(After(hidden, events), e)
  {
    assert (events + [e])[..|events|] == events;
  }

  /** Alone, a listener with an interval that is not positive and finite leaves the record idle without a timer after its first read. */
  lemma LoneListenerStops(i: Interval) returns (events: seq<Event>)
    requires !Positive(i)
    ensures Valid(false, events) && Uses(events, {i}) && !TimerArmed(After(false, events))
  {
    events := [];
    Then(false, events, Subscribe(0, i));
    events := events + [Subscribe(0, i)];
    var m := After(false, events);
    assert m.record.listeners[0] == i;
    Then(false, events, NetworkFails(""));
    events := events + [NetworkFails("")];
    assert !Polls(m.record.listeners);
  }

  /** Polling goes on in every run over a set of intervals if and only if each of them is positive and finite. */
  lemma PollingExactly(intervals: set<Interval>)
    ensures PollsAlways(intervals) <==> forall i :: i in intervals ==> Positive(i)
  {
    if forall i :: i in intervals ==> Positive(i) {
      forall hidden, events | Valid(hidden, events) && Uses(events, intervals) ensures TimerArmed(After(hidden, events)) {
        PollingGoesOn(hidden, events);
      }
    } else {
      var i :| i in intervals && !Positive(i);
      var events := LoneListenerStops(i);
      assert Uses(events, intervals);
    }
  }

  /**
   Beside others: a listener that comes and goes while the record is idle leaves it without a timer if and only if its interval is
   zero, negative or no number. An infinite interval does no harm.
  */
  lemma PassingListener(m: Machine, l: Listener, i: Interval)
    requires !m.hidden && m.record.flight.None? && m.record.state.meta.Some? && l !in m.record.listeners
    requires m.record.listeners != map[] && forall k :: k in m.record.listeners ==> Positive(m.record.listeners[k])
    ensures var t := Next(Next(m, Subscribe(l, i)), Unsubscribe(l));
            && t.record.listeners == m.record.listeners && Polls(t.record.listeners) && t.record.flight.None? && !t.hidden
            && (t.record.timer.Off? <==> !Positive(i) && !i.Infinite?)
  {
    var added := m.record.listeners[l := i];
    assert added[l] == i && added - {l} == m.record.listeners;
    PositivePolls(m.record);
    var k :| k in m.record.listeners;
    assert k in added && added[k].Millis?;
  }

  const Resource := Version([], Meta(0, "1", None, [], []), None)

  const Asked := Flight(false, None, 2, Fetching, None, None)
  const Published := Machine(NewRecord, false, 2, Ledger([Resource], None, 0, 0, 0))
  const Heard := Machine(NewRecord.(listeners := map[0 := Millis(1000)], state := Blank.(loading := true), flight := Some(Asked)),
                         false, 3, Ledger([Resource], None, 0, 2, 0))
  const Answered := Heard.(now := 4, record := Heard.record.(flight := Some(Asked.(answer := Some(Fresh(Resource)), asOf := Some(Resource)))))
  const Arrived := Answered.(now := 5, record := Answered.record.(flight := Some(Answered.record.flight.value.(phase := Reading(Resource)))))

  lemma FirstEvents()
    ensures Next(Initial, Publish(Resource)) == Published && Next(Published, Subscribe(0, Millis(1000))) == Heard
  {
    var one := Millis(1000);
    assert NewRecord.listeners[0 := one] == map[0 := one];
    assert 0 in NewRecord.listeners[0 := one];
  }

  lemma NextEvents()
    ensures Next(Heard, Serve(Fresh(Resource))) == Answered && Next(Answered, Arrive) == Arrived
  {
  }

  lemma LastEvent()
    ensures var m := Next(Arrived, Body(true));
            !m.hidden && m.record.flight.None? && m.record.state.meta.Some? && m.record.listeners == map[0 := Millis(1000)]
  {
  }

  lemma RunEnabled()
    ensures Enabled(Initial, Publish(Resource)) && Enabled(Published, Subscribe(0, Millis(1000)))
    ensures Enabled(Heard, Serve(Fresh(Resource))) && Enabled(Answered, Arrive) && Enabled(Arrived, Body(true))
  {
  }

  /** A run to an idle, visible record with one listener that polls every second. */
  lemma IdleRun() returns (events: seq<Event>)
    ensures Valid(false, events)
    ensures var m := After(false, events);
            !m.hidden && m.record.flight.None? && m.record.state.meta.Some? && m.record.listeners == map[0 := Millis(1000)]
  {
    assert Valid(false, []) && After(false, []) == Initial;
    hide Valid, After, Next, Enabled;
    RunEnabled();
    FirstEvents();
    NextEvents();
    LastEvent();
    events := [];
    Then(false, events, Publish(Resource));
    events := events + [Publish(Resource)];
    Then(false, events, Subscribe(0, Millis(1000)));
    events := events + [Subscribe(0, Millis(1000))];
    Then(false, events, Serve(Fresh(Resource)));
    events := events + [Serve(Fresh(Resource))];
    Then(false, events, Arrive);
    events := events + [Arrive];
    Then(false, events, Body(true));
    events := events + [Body(true)];
  }

  /** From the first moment of a cache: a run after which a record with one proper listener polls no more, for every such interval. */
  lemma PassingListenerCanStopPolling(i: Interval) returns (events: seq<Event>)
    requires !Positive(i) && !i.Infinite?
    ensures Valid(false, events) && !TimerArmed(After(false, events))
    ensures After(false, events).record.listeners == map[0 := Millis(1000)]
  {
    events := IdleRun();
    var m := After(false, events);
    assert 0 in m.record.listeners && Positive(m.record.listeners[0]);
    PassingListener(m, 1, i);
    Then(false, events, Subscribe(1, i));
    events := events + [Subscribe(1, i)];
    Then(false, events, Unsubscribe(1));
    events := events + [Unsubscribe(1)];
  }

  // ---- The gate of a paged refresh ----

  /** Any read that can still succeed, and any that raised the read version over `version`, started at `since` or later. */
  predicate Gate(m: Machine, version: nat, since: nat) {
    && m.record.readVersion >= version && m.now >= since
    && (m.record.flight.Some? && !m.record.flight.value.aborted ==> m.record.flight.value.started >= since)
    && (m.record.readVersion > version ==> m.ledger.lastGoodStart >= since)
  }

  lemma EventKeepsGate(m: Machine, e: Event, version: nat, since: nat)
    requires Inv(m) && Enabled(m, e) && Gate(m, version, since)
    ensures Gate(Next(m, e), version, since)
  {
    if Next(m, e).record.readVersion != m.record.readVersion {
      OnlyGoodReadsCount(m, e);
    }
    if Ends(e) && !GoesOn(m, e) {
      EndedFlight(m, e);
    }
  }

  lemma EndedFlight(m: Machine, e: Event)
    requires Enabled(m, e) && Ends(e) && !GoesOn(m, e)
    ensures var q := Next(m, e).record; q.flight.None? || q.flight.value.started == m.now
  {
    EndIsSettle(m, e);
    SettleFlight(Ended(m, e), m.hidden, m.now);
    hide Settle, Step, Ended;
  }
}
