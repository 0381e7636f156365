/** When a read of one record starts, with what, and how it ends: what every single event brings about. */
module QueryReads {
  import opened QueryRecord
  import opened QueryGuarantees

  /** A read has started with this event. */
  predicate Starts(m: Machine, n: Machine) {
    n.record.flight.Some? && (m.record.flight.None? || n.record.flight.value.started != m.record.flight.value.started)
  }

  /**
   A read that starts is the only one, begins at this moment, sends the tag of the cached value if there is one, leaves no timer and
   no refresh pending, and only a visible record that somebody listens to starts one. What asks for it is a subscription, the tab
   being shown, an invalidation or the timer, or a refresh that was pending when the last read ended.
  */
  lemma EveryStart(m: Machine, e: Event)
    requires Inv(m) && Enabled(m, e) && Starts(m, Next(m, e))
    ensures var n := Next(m, e);
            var r, f := n.record, n.record.flight.value;
            && f.started == m.now && n.ledger.lastStart == m.now && !f.aborted && f.phase.Fetching? && f.answer.None?
            && f.sent == (if r.etag.Some? && r.etag.value != "" then r.etag else None)
            && r.timer.Off? && !r.pendingRefresh && !n.hidden && r.listeners != map[]
            && (e.Subscribe? || e.Show? || e.Invalidate? || e.TimerFires? || (Ends(e) && m.record.pendingRefresh))
            && (m.record.flight.Some? ==> Ends(e))
  {
    if Ends(e) && !GoesOn(m, e) {
      EndIsSettle(m, e);
      SettleStarts(Ended(m, e), m.hidden, m.now);
      hide Settle, Step, Ended;
    }
  }

  lemma SettleStarts(r: Record, hidden: bool, now: nat)
    requires r.flight.Some?
    ensures var q := Settle(r, hidden, now);
            q.flight.Some? ==> q.timer.Off? && !q.pendingRefresh && !hidden && q.listeners != map[] && r.pendingRefresh
                               && q.flight == Some(Flight(false, Sendable(q.etag), now, Fetching, None, None))
  {
  }

  // ---- The timer ----

  lemma FiringReads(m: Machine)
    requires DemandOk(m) && QuietOk(m) && m.record.timer.Armed?
    ensures var n := Next(m, TimerFires);
            && (m.record.flight.None? ==> Starts(m, n) && n.record.flight.value.started == m.now && n.ledger.lastStart == m.now
                                          && n.record.timer.Off?)
            && (m.record.flight.Some? ==> n.record.flight == m.record.flight
                                          && n.record.pendingRefresh == (m.record.pendingRefresh || m.record.flight.value.aborted)
                                          && n.ledger.lastStart < m.now)
            && n.record.listeners == m.record.listeners && SameRead(n.record, m.record)
  {
  }

  /** A timer that fires reads: a read starts at that moment if and only if none was in flight, which otherwise goes on untouched. */
  lemma TimerReads(hidden: bool, events: seq<Event>)
    requires Valid(hidden, events) && Enabled(After(hidden, events), TimerFires)
    ensures var m := After(hidden, events);
            var n := Next(m, TimerFires);
            && (m.record.flight.None? ==> Starts(m, n) && n.record.flight.value.started == m.now && n.ledger.lastStart == m.now
                                          && n.record.timer.Off?)
            && (m.record.flight.Some? ==> n.record.flight == m.record.flight
                                          && n.record.pendingRefresh == (m.record.pendingRefresh || m.record.flight.value.aborted)
                                          && n.ledger.lastStart < m.now)
            && n.record.listeners == m.record.listeners && SameRead(n.record, m.record)
  {
    InvHolds(hidden, events);
    FiringReads(After(hidden, events));
    hide After, Valid, Next, FlightOk, DataOk;
  }

  /** Polling is reading: with positive finite intervals a visible, heard and idle record has its timer armed, and the timer reads. */
  lemma PollingReads(hidden: bool, events: seq<Event>)
    requires Valid(hidden, events)
    requires forall k :: 0 <= k < |events| && events[k].Subscribe? ==> Positive(events[k].interval)
    requires !After(hidden, events).hidden && After(hidden, events).record.listeners != map[]
    requires After(hidden, events).record.flight.None?
    ensures var m := After(hidden, events);
            && Enabled(m, TimerFires)
            && Next(m, TimerFires).record.flight.Some? && Next(m, TimerFires).record.flight.value.started == m.now
            && Next(m, TimerFires).ledger.lastStart == m.now
  {
    PollingGoesOn(hidden, events);
    TimerReads(hidden, events);
  }

  lemma {:induction false} StartsGrow(hidden: bool, events: seq<Event>, k: nat)
    requires Valid(hidden, events) && k <= |events|
    ensures After(hidden, events).ledger.lastStart >= After(hidden, events[..k]).ledger.lastStart
    ensures Valid(hidden, events[..k])
    decreases |events|
  {
    if k == |events| {
      assert events[..k] == events;
    } else {
      var front := events[..|events| - 1];
      StartsGrow(hidden, front, k);
      assert front[..k] == events[..k];
      InvHolds(hidden, front);
      LastStartGrows(After(hidden, front), events[|events| - 1]);
    }
  }

  lemma LastStartGrows(m: Machine, e: Event)
    requires Inv(m)
    ensures Next(m, e).ledger.lastStart >= m.ledger.lastStart
  {
  }

  /** Over whole runs: after every firing of the timer of an idle record, a read has started at that moment or later. */
  lemma EveryFiringReads(hidden: bool, events: seq<Event>, k: nat)
    requires Valid(hidden, events) && k < |events| && events[k].TimerFires? && After(hidden, events[..k]).record.flight.None?
    ensures After(hidden, events).ledger.lastStart >= 1 + k
  {
    StartsGrow(hidden, events, k + 1);
    var before := events[..k];
    assert events[..k + 1][..k] == before;
    ClockCounts(hidden, before);
    TimerReads(hidden, before);
  }

  // ---- Subscriptions, the tab ----

  /** A first subscription to what was never read reads: at once, or as soon as an aborted read has ended. */
  lemma SubscribingReads(m: Machine, l: Listener, i: Interval)
    requires Inv(m) && Enabled(m, Subscribe(l, i))
    ensures var n := Next(m, Subscribe(l, i));
            && n.record.listeners == m.record.listeners[l := i] && SameRead(n.record, m.record)
            && (!m.hidden && m.record.state.meta.None? ==>
                  && n.record.flight.Some?
                  && (m.record.flight.None? ==> Starts(m, n))
                  && (m.record.flight.Some? && m.record.flight.value.aborted ==> n.record.pendingRefresh))
            && (m.hidden || m.record.state.meta.Some? ==> n.record.flight == m.record.flight)
  {
  }

  /** One listener of several that goes leaves everything else as it is; the last one stops the timer and aborts the read. */
  lemma Unsubscribing(m: Machine, l: Listener)
    requires Enabled(m, Unsubscribe(l))
    ensures var n := Next(m, Unsubscribe(l));
            && n.record.listeners == m.record.listeners - {l} && n.record.state == m.record.state && SameRead(n.record, m.record)
            && (n.record.listeners != map[] ==> n.record == m.record.(listeners := m.record.listeners - {l}))
            && (n.record.listeners == map[] ==>
                  n.record.timer.Off? && (m.record.flight.Some? ==> n.record.flight.Some? && n.record.flight.value.aborted))
  {
  }

  /** Hiding and showing the tab, and a refresh asked for, of a record somebody listens to. */
  lemma ShowingReads(m: Machine, e: Event)
    requires Inv(m) && Enabled(m, e) && (e.Show? || e.Invalidate? || e.Hide?)
    ensures var n := Next(m, e);
            && n.hidden == (if e.Hide? then true else if e.Show? then false else m.hidden)
            && n.record.listeners == m.record.listeners && SameRead(n.record, m.record)
            && (!n.hidden && m.record.listeners != map[] ==>
                  && n.record.flight.Some? && (m.record.flight.None? ==> Starts(m, n))
                  && (m.record.flight.Some? ==> n.record.flight == m.record.flight && n.record.pendingRefresh))
            && (e.Hide? && m.record.flight.Some? ==> n.record.flight.Some? && n.record.flight.value.aborted)
  {
  }

  // ---- How a read ends ----

  /** The message of the failure a read ends with, if it fails. */
  function FailureOf(m: Machine, e: Event): Option<(string, Option<ErrorMeta>)>
    requires Enabled(m, e) && Ends(e)
  {
    var f := m.record.flight.value;
    if e.NetworkFails? then Some((e.message, None))
    else if e.Body? && !e.valid then Some(("The API returned an invalid response.", None))
    else if e.Arrive? && f.answer.value.Failure? then Some((f.answer.value.message, f.answer.value.meta))
    else if e.Arrive? && f.answer.value.NotModified? && m.record.state.meta.None? then Some(("The API returned an invalid response.", None))
    else None
  }

  /**
   A read that was not aborted ends in one of two ways, whatever the server answers and the record holds: it fails, shows its message and keeps the value; or it succeeds, shows no
   error, notes the moment, and keeps the value (304) or takes the body with the header's tag, or else the body's own.
  */
  lemma EveryEnd(m: Machine, e: Event)
    requires Enabled(m, e) && Ends(e) && !m.record.flight.value.aborted && !(e.Arrive? && m.record.flight.value.answer.value.Fresh?)
    ensures var r, s, q := m.record, m.record.state, Next(m, e).record;
            match FailureOf(m, e)
            case Some((message, meta)) =>
              && q.state.error == Some(message) && q.state.errorMeta == meta && SameRead(q, r) && q.state.observedAt == s.observedAt
            case None =>
              && q.state.error.None? && q.state.errorMeta.None? && q.state.observedAt == Some(m.now)
              && q.readVersion == r.readVersion + 1
              && (e.Arrive? ==> q.state.data == s.data && q.state.meta == s.meta && q.etag == r.etag)
              && (e.Body? ==>
                    var v := r.flight.value.phase.version;
                    && q.state.data == Some(v.data) && q.state.meta == Some(v.meta)
                    && q.etag == Some(if v.header.Some? then v.header.value else v.meta.etag))
  {
    EndIsSettle(m, e);
    SettleShows(Ended(m, e), m.hidden, m.now);
    hide Settle, Step;
  }

  /** Ending a read changes nothing shown but that nothing loads. */
  lemma SettleShows(r: Record, hidden: bool, now: nat)
    requires r.flight.Some?
    ensures var q := Settle(r, hidden, now);
            && q.state.(loading := false) == r.state.(loading := false) && q.etag == r.etag && q.readVersion == r.readVersion
            && (r.flight.value.aborted || !r.state.loading ==> (q.state.loading <==> q.flight.Some? && q.state.meta.None?))
  {
  }

  /** An OK response leaves everything as it is until its body is parsed. */
  lemma BodyIsAwaited(m: Machine)
    requires Inv(m) && Enabled(m, Arrive) && !m.record.flight.value.aborted && m.record.flight.value.answer.value.Fresh?
    ensures var r, q := m.record, Next(m, Arrive).record;
            q == r.(flight := Some(r.flight.value.(phase := Reading(r.flight.value.answer.value.version))))
  {
  }

  // ---- Loading ----

  /** Loading is shown exactly while a read is in flight for what was never read. */
  predicate LoadingOk(m: Machine) {
    m.record.state.loading <==> m.record.flight.Some? && m.record.state.meta.None?
  }

  lemma EventKeepsLoading(m: Machine, e: Event)
    requires Inv(m) && LoadingOk(m) && Enabled(m, e)
    ensures LoadingOk(Next(m, e))
  {
    if Ends(e) {
      if !GoesOn(m, e) {
        EndIsSettle(m, e);
        SettleShows(Ended(m, e), m.hidden, m.now);
        hide Settle, Step;
      }
    } else {
      OtherKeepsLoading(m, e);
    }
  }

  lemma OtherKeepsLoading(m: Machine, e: Event)
    requires LoadingOk(m) && Enabled(m, e) && !Ends(e)
    ensures LoadingOk(Next(m, e))
  {
  }

  /** In every run a record shows that it loads exactly while its first read is in flight: never for ever, and not while it refreshes. */
  lemma {:induction false} LoadingExactly(hidden: bool, events: seq<Event>)
    requires Valid(hidden, events)
    ensures var r := After(hidden, events).record; r.state.loading <==> r.flight.Some? && r.state.meta.None?
    decreases |events|
  {
    if events != [] {
      var front := events[..|events| - 1];
      LoadingExactly(hidden, front);
      InvHolds(hidden, front);
      EventKeepsLoading(After(hidden, front), events[|events| - 1]);
    }
  }
}
