/**
 One record of the query cache: a single request in flight, ETag revalidation, polling, invalidation, hiding and aborting, as
 an event-driven machine beside a server whose value changes over time.
*/
module QueryRecord {

  datatype Option<+T> = None | Some(value: T)

  /** A poll interval as JavaScript sees it. */
  datatype Interval = Millis(ms: int) | Infinite | NotANumber

  /** The provenance of a read. */
  datatype Meta = Meta(at: int, etag: string, next: Option<string>, sources: seq<string>, stale: seq<string>)

  /** What a failed read reports besides its message. */
  datatype ErrorMeta = ErrorMeta(sources: seq<string>, stale: seq<string>)

  /** What a component sees of a read; `data` stands for the rows of the payload. */
  datatype Snapshot = Snapshot(data: Option<seq<string>>, meta: Option<Meta>, loading: bool,
                               error: Option<string>, errorMeta: Option<ErrorMeta>, observedAt: Option<nat>)

  /** One version of the resource: its payload, its provenance, and the `ETag` header of its responses (if any). */
  datatype Version = Version(data: seq<string>, meta: Meta, header: Option<string>)

  function TagOf(v: Version): string {
    match v.header
    case Some(t) => t
    case None => v.meta.etag
  }

  datatype Answer = NotModified | Fresh(version: Version) | Failure(message: string, meta: Option<ErrorMeta>)

  /** Waiting for the response, or for the body of an OK response. */
  datatype Phase = Fetching | Reading(version: Version)

  /** The read in flight: the tag it sent, when it started, what the server answered, and what was current when it did. */
  datatype Flight = Flight(aborted: bool, sent: Option<string>, started: nat, phase: Phase, answer: Option<Answer>, asOf: Option<Version>)

  /** A fired timer keeps its identity in the record until it is cleared. */
  datatype Timer = Off | Armed | Fired

  type Listener = nat

  datatype Record = Record(state: Snapshot, etag: Option<string>, listeners: map<Listener, Interval>, timer: Timer,
                           flight: Option<Flight>, pendingRefresh: bool, readVersion: nat)

  const Blank := Snapshot(None, None, false, None, None, None)
  const NewRecord := Record(Blank, None, map[], Off, None, false, 0)

  // ---- The functions of the cache ----

  function ClearSchedule(r: Record): Record {
    r.(timer := Off)
  }

  /** `Math.min` of the listeners' intervals is finite and positive. */
  ghost predicate Polls(listeners: map<Listener, Interval>) {
    && (forall l :: l in listeners ==> !listeners[l].NotANumber? && (listeners[l].Millis? ==> listeners[l].ms > 0))
    && (exists l :: l in listeners && listeners[l].Millis?)
  }

  ghost function Schedule(r: Record, hidden: bool): Record {
    if !hidden && r.listeners != map[] && Polls(r.listeners) then r.(timer := Armed) else r.(timer := Off)
  }

  /** An empty tag is not sent. */
  function Sendable(etag: Option<string>): Option<string> {
    if etag.Some? && etag.value != "" then etag else None
  }

  function Request(r: Record, hidden: bool, refreshAfterCurrent: bool, now: nat): Record {
    if hidden || r.listeners == map[] then r
    else if r.flight.Some? then
      if refreshAfterCurrent || r.flight.value.aborted then r.(pendingRefresh := true) else r
    else
      r.(timer := Off, pendingRefresh := false, state := r.state.(loading := r.state.meta.None?),
         flight := Some(Flight(false, Sendable(r.etag), now, Fetching, None, None)))
  }

  function Abort(r: Record): Record {
    if r.flight.Some? then r.(flight := Some(r.flight.value.(aborted := true))) else r
  }

  /** The `finally` of `request`. */
  ghost function Settle(r: Record, hidden: bool, now: nat): Record
    requires r.flight.Some?
  {
    var q := r.(flight := None, state := if r.flight.value.aborted then r.state.(loading := false) else r.state);
    if q.pendingRefresh && !hidden && q.listeners != map[] then Request(q, hidden, false, now) else Schedule(q, hidden)
  }

  /** The `catch` of `request`: an aborted read publishes no failure. */
  function Fail(r: Record, message: string, meta: Option<ErrorMeta>): Record
    requires r.flight.Some?
  {
    if r.flight.value.aborted then r
    else r.(state := r.state.(loading := false, error := Some(message), errorMeta := meta))
  }

  const InvalidResponse := "The API returned an invalid response."

  function ApplyNotModified(r: Record, clock: nat): Record
    requires r.flight.Some?
  {
    if r.state.meta.None? then Fail(r, InvalidResponse, None)
    else r.(readVersion := r.readVersion + 1,
            state := r.state.(loading := false, observedAt := Some(clock), error := None, errorMeta := None))
  }

  function ApplyFresh(r: Record, v: Version, clock: nat): Record {
    r.(readVersion := r.readVersion + 1, etag := Some(TagOf(v)),
       state := Snapshot(Some(v.data), Some(v.meta), false, None, None, Some(clock)))
  }

  // ---- The machine ----

  datatype Event =
    | Subscribe(listener: Listener, interval: Interval)
    | Unsubscribe(listener: Listener)
    | Hide
    | Show
    | Invalidate                     // a live mark of a subscribed topic, or `refreshQuery`
    | AbortRead                      // the paged `refresh` aborts the read before it asks for another
    | TimerFires
    | Publish(version: Version)      // the resource changes
    | Serve(answer: Answer)          // the server answers the request in flight
    | Arrive                         // the response reaches `readRecord`
    | NetworkFails(message: string)
    | Body(valid: bool)              // the body of an OK response is parsed; is it an envelope every listener accepts?
    | AbortSettles
    | Elsewhere                      // something happens to another record

  /** What the environment remembers of the run: nothing of it is visible to the cache. */
  datatype Ledger = Ledger(versions: seq<Version>, lastGood: Option<Version>, lastGoodStart: nat, lastStart: nat, demand: nat)

  datatype Machine = Machine(record: Record, hidden: bool, now: nat, ledger: Ledger)

  function Current(g: Ledger): Version
    requires g.versions != []
  {
    g.versions[|g.versions| - 1]
  }

  /** The same tag is never given to two payloads. */
  predicate TagsAreStrong(versions: seq<Version>) {
    forall i, j :: 0 <= i < |versions| && 0 <= j < |versions| && TagOf(versions[i]) == TagOf(versions[j]) ==>
      versions[i].data == versions[j].data
  }

  /** The server answers with its current version, and 304 only to a request that sent the current version's tag. */
  predicate HonestAnswer(m: Machine, a: Answer)
    requires m.record.flight.Some?
  {
    match a
    case NotModified => m.ledger.versions != [] && m.record.flight.value.sent == Some(TagOf(Current(m.ledger)))
    case Fresh(v) => m.ledger.versions != [] && v == Current(m.ledger)
    case Failure(_, _) => true
  }

  predicate Enabled(m: Machine, e: Event) {
    match e
    case Subscribe(l, _) => l !in m.record.listeners
    case Unsubscribe(l) => l in m.record.listeners
    case Hide => !m.hidden
    case Show => m.hidden
    case TimerFires => m.record.timer.Armed?
    case Publish(v) => TagsAreStrong(m.ledger.versions + [v])
    case Serve(a) => m.record.flight.Some? && m.record.flight.value.answer.None? && HonestAnswer(m, a)
    case Arrive => m.record.flight.Some? && m.record.flight.value.phase.Fetching? && m.record.flight.value.answer.Some?
    case NetworkFails(_) => m.record.flight.Some?
    case Body(_) => m.record.flight.Some? && m.record.flight.value.phase.Reading?
    case AbortSettles => m.record.flight.Some? && m.record.flight.value.aborted
    case _ => true
  }

  /** The response reaches the record: an aborted read changes nothing but its own end. */
  ghost function OnArrive(r: Record, hidden: bool, now: nat): Record
    requires r.flight.Some? && r.flight.value.answer.Some?
  {
    var f := r.flight.value;
    if f.aborted then Settle(r, hidden, now)
    else match f.answer.value
      case NotModified => Settle(ApplyNotModified(r, now), hidden, now)
      case Fresh(v) => r.(flight := Some(f.(phase := Reading(v))))
      case Failure(message, meta) => Settle(Fail(r, message, meta), hidden, now)
  }

  ghost function OnBody(r: Record, valid: bool, hidden: bool, now: nat): Record
    requires r.flight.Some? && r.flight.value.phase.Reading?
  {
    var f := r.flight.value;
    if f.aborted then Settle(r, hidden, now)
    else if valid then Settle(ApplyFresh(r, f.phase.version, now), hidden, now)
    else Settle(Fail(r, InvalidResponse, None), hidden, now)
  }

  /** The record after an event. */
  ghost function Step(r: Record, hidden: bool, now: nat, e: Event): Record
  {
    match e
    case Subscribe(l, interval) =>
      var q := r.(listeners := r.listeners[l := interval]);
      if q.state.meta.None? then Request(q, hidden, false, now) else Schedule(q, hidden)
    case Unsubscribe(l) =>
      var q := r.(listeners := r.listeners - {l});
      if q.listeners == map[] then Abort(ClearSchedule(q)) else q
    case Hide => Abort(ClearSchedule(r))
    case Show => Request(r, false, true, now)
    case Invalidate => Request(r, hidden, true, now)
    case AbortRead => Abort(r)
    case TimerFires => Request(r.(timer := Fired), hidden, false, now)
    case Publish(_) => r
    case Serve(_) => r
    case Elsewhere => r
    case Arrive => if r.flight.Some? && r.flight.value.answer.Some? then OnArrive(r, hidden, now) else r
    case NetworkFails(message) => if r.flight.Some? then Settle(Fail(r, message, None), hidden, now) else r
    case Body(valid) => if r.flight.Some? && r.flight.value.phase.Reading? then OnBody(r, valid, hidden, now) else r
    case AbortSettles => if r.flight.Some? then Settle(r, hidden, now) else r
  }

  /** The server's part of an event. */
  function Served(r: Record, g: Ledger, e: Event): Record {
    if e.Serve? && r.flight.Some? && g.versions != [] then
      r.(flight := Some(r.flight.value.(answer := Some(e.answer), asOf := Some(Current(g)))))
    else if e.Serve? && r.flight.Some? then
      r.(flight := Some(r.flight.value.(answer := Some(e.answer))))
    else r
  }

  /** A refresh is asked for: by an invalidation or because the tab is shown, while somebody listens. */
  predicate Asks(r: Record, e: Event) {
    (e.Invalidate? || e.Show?) && r.listeners != map[]
  }

  function Note(before: Record, after: Record, g: Ledger, now: nat, e: Event): Ledger {
    var versions := if e.Publish? then g.versions + [e.version] else g.versions;
    var good := after.readVersion > before.readVersion && before.flight.Some?;
    var started := after.flight.Some? && (before.flight.None? || after.flight.value.started != before.flight.value.started);
    Ledger(versions,
           if good then before.flight.value.asOf else g.lastGood,
           if good then before.flight.value.started else g.lastGoodStart,
           if started then now else g.lastStart,
           if after.listeners == map[] then 0 else if Asks(before, e) then now else g.demand)
  }

  ghost function Next(m: Machine, e: Event): Machine {
    var after := Step(Served(m.record, m.ledger, e), m.hidden, m.now, e);
    Machine(after, if e.Hide? then true else if e.Show? then false else m.hidden, m.now + 1,
            Note(m.record, after, m.ledger, m.now, e))
  }

  const Initial := Machine(NewRecord, false, 1, Ledger([], None, 0, 0, 0))

  ghost function After(hidden: bool, events: seq<Event>): Machine {
    if events == [] then Initial.(hidden := hidden) else Next(After(hidden, events[..|events| - 1]), events[|events| - 1])
  }

  ghost predicate Valid(hidden: bool, events: seq<Event>) {
    events == [] || (Valid(hidden, events[..|events| - 1]) && Enabled(After(hidden, events[..|events| - 1]), events[|events| - 1]))
  }

  // ---- Invariants ----

  /** The flight carries the record's own tag, knows what the server had when it answered, and answers honestly. */
  predicate FlightOk(m: Machine) {
    var r, g := m.record, m.ledger;
    r.flight.Some? ==>
      var f := r.flight.value;
      && f.started < m.now && f.started <= g.lastStart < m.now
      && f.sent == Sendable(r.etag)
      && (f.answer.Some? && !f.answer.value.Failure? ==> f.asOf.Some? && f.asOf.value in g.versions)
      && (f.answer.Some? && f.answer.value.NotModified? ==> f.sent == Some(TagOf(f.asOf.value)))
      && (f.answer.Some? && f.answer.value.Fresh? ==> f.answer.value.version == f.asOf.value)
      && (f.phase.Reading? ==> f.answer.Some? && f.answer.value == Fresh(f.phase.version))
  }

  /** The cached value is the server's at the last good read. */
  predicate DataOk(m: Machine) {
    var r, g := m.record, m.ledger;
    match g.lastGood
    case None => r.state.data.None? && r.state.meta.None? && r.etag.None? && r.readVersion == 0
    case Some(v) =>
      && v in g.versions
      && r.state.data == Some(v.data) && r.state.meta.Some? && r.etag == Some(TagOf(v)) && r.readVersion > 0
  }

  /** The last fetch started no earlier than the last refresh asked for, or another is due as soon as this one ends. */
  predicate DemandOk(m: Machine) {
    var r, g := m.record, m.ledger;
    && g.lastStart < m.now && g.demand < m.now
    && (r.listeners == map[] ==> g.demand == 0)
    && (!m.hidden && r.listeners != map[] ==>
          g.demand <= g.lastStart || (r.flight.Some? && r.pendingRefresh))
    && (r.flight.Some? ==> r.flight.value.started == g.lastStart)
  }

  /** Out of sight or unheard, a record is silent. */
  predicate QuietOk(m: Machine) {
    m.hidden || m.record.listeners == map[] ==> m.record.timer.Off? && (m.record.flight.Some? ==> m.record.flight.value.aborted)
  }

  ghost predicate Inv(m: Machine) {
    TagsAreStrong(m.ledger.versions) && FlightOk(m) && DataOk(m) && DemandOk(m) && QuietOk(m)
  }

  /** The event can end the read in flight. */
  predicate Ends(e: Event) {
    e.Arrive? || e.NetworkFails? || e.Body? || e.AbortSettles?
  }

  lemma EventKeepsData(m: Machine, e: Event)
    requires DataOk(m) && Enabled(m, e) && !Ends(e)
    ensures DataOk(Next(m, e))
  {
  }

  lemma EventKeepsFlight(m: Machine, e: Event)
    requires FlightOk(m) && DemandOk(m) && Enabled(m, e) && !Ends(e)
    ensures FlightOk(Next(m, e))
  {
  }

  /** No event but the end of a read disturbs the cached value or the tag in flight. */
  lemma EventKeepsRead(m: Machine, e: Event)
    requires Inv(m) && Enabled(m, e) && !Ends(e)
    ensures DataOk(Next(m, e)) && FlightOk(Next(m, e)) && TagsAreStrong(Next(m, e).ledger.versions)
  {
    EventKeepsData(m, e);
    EventKeepsFlight(m, e);
    hide DataOk, FlightOk, DemandOk, QuietOk, Step, Served;
  }

  lemma EventKeepsTiming(m: Machine, e: Event)
    requires Inv(m) && Enabled(m, e) && !Ends(e)
    ensures DemandOk(Next(m, e)) && QuietOk(Next(m, e))
  {
  }

  lemma SameTagSameData(versions: seq<Version>, v: Version, w: Version)
    requires TagsAreStrong(versions) && v in versions && w in versions && TagOf(v) == TagOf(w)
    ensures v.data == w.data
  {
    var i :| 0 <= i < |versions| && versions[i] == v;
    var j :| 0 <= j < |versions| && versions[j] == w;
  }

  /** Two records hold the same value, with the same tag, after as many reads. */
  predicate SameRead(q: Record, r: Record) {
    q.state.data == r.state.data && q.state.meta == r.state.meta && q.etag == r.etag && q.readVersion == r.readVersion
  }

  lemma SettleKeepsRead(r: Record, hidden: bool, now: nat)
    requires r.flight.Some?
    ensures SameRead(Settle(r, hidden, now), r) && Settle(r, hidden, now).state.error == r.state.error
  {
  }

  /** A 304 confirms the very value the record holds. */
  lemma NotModifiedConfirms(m: Machine)
    requires Inv(m) && Enabled(m, Arrive) && !m.record.flight.value.aborted && m.record.flight.value.answer.value.NotModified?
    ensures DataOk(Next(m, Arrive))
  {
    var f, g := m.record.flight.value, m.ledger;
    assert g.lastGood.Some? && TagOf(g.lastGood.value) == TagOf(f.asOf.value);
    SameTagSameData(g.versions, g.lastGood.value, f.asOf.value);
    SettleKeepsRead(ApplyNotModified(m.record, m.now), m.hidden, m.now);
  }

  /** An OK response arrives: the read goes on with its body. */
  predicate GoesOn(m: Machine, e: Event)
    requires Enabled(m, e)
  {
    e.Arrive? && !m.record.flight.value.aborted && m.record.flight.value.answer.value.Fresh?
  }

  /** The record as the read in flight leaves it, before `finally`. */
  function Ended(m: Machine, e: Event): (r: Record)
    requires Enabled(m, e) && Ends(e)
    ensures r.flight == m.record.flight && r.listeners == m.record.listeners && r.pendingRefresh == m.record.pendingRefresh
  {
    var r, f := m.record, m.record.flight.value;
    if f.aborted || e.AbortSettles? then r
    else if e.NetworkFails? then Fail(r, e.message, None)
    else if e.Body? then (if e.valid then ApplyFresh(r, f.phase.version, m.now) else Fail(r, InvalidResponse, None))
    else if f.answer.value.NotModified? then ApplyNotModified(r, m.now)
    else if f.answer.value.Failure? then Fail(r, f.answer.value.message, f.answer.value.meta)
    else r
  }

  lemma EndIsSettle(m: Machine, e: Event)
    requires Enabled(m, e) && Ends(e) && !GoesOn(m, e)
    ensures Next(m, e).record == Settle(Ended(m, e), m.hidden, m.now)
  {
  }

  lemma EndKeepsData(m: Machine, e: Event)
    requires Inv(m) && Enabled(m, e) && Ends(e)
    ensures DataOk(Next(m, e))
  {
    var r := m.record;
    if e.Arrive? && !r.flight.value.aborted && r.flight.value.answer.value.NotModified? {
      NotModifiedConfirms(m);
    } else if !GoesOn(m, e) {
      EndIsSettle(m, e);
      SettleKeepsRead(Ended(m, e), m.hidden, m.now);
      hide Settle, Step;
    }
  }

  /**
   After a read has ended: a read that starts at once if a refresh is pending and somebody sees it, sending the record's own tag;
   none otherwise. Out of sight or unheard there is no timer either.
  */
  lemma SettleFlight(r: Record, hidden: bool, now: nat)
    requires r.flight.Some?
    ensures var q := Settle(r, hidden, now);
            && q.listeners == r.listeners
            && q.flight == (if r.pendingRefresh && !hidden && r.listeners != map[]
                            then Some(Flight(false, Sendable(q.etag), now, Fetching, None, None)) else None)
            && (hidden || r.listeners == map[] ==> q.timer.Off?)
  {
  }

  lemma EndKeepsFlight(m: Machine, e: Event)
    requires Inv(m) && Enabled(m, e) && Ends(e)
    ensures FlightOk(Next(m, e))
  {
    if !GoesOn(m, e) {
      EndIsSettle(m, e);
      SettleFlight(Ended(m, e), m.hidden, m.now);
      hide Settle, Step, Ended, DataOk, QuietOk;
    }
  }

  lemma EndKeepsTiming(m: Machine, e: Event)
    requires Inv(m) && Enabled(m, e) && Ends(e)
    ensures DemandOk(Next(m, e)) && QuietOk(Next(m, e))
  {
    if !GoesOn(m, e) {
      EndIsSettle(m, e);
      SettleFlight(Ended(m, e), m.hidden, m.now);
      hide Settle, Step, Ended, DataOk, FlightOk;
    }
  }

  lemma EventKeepsInv(m: Machine, e: Event)
    requires Inv(m) && Enabled(m, e)
    ensures Inv(Next(m, e))
  {
    if Ends(e) {
      EndKeepsData(m, e);
      EndKeepsFlight(m, e);
      EndKeepsTiming(m, e);
    } else {
      EventKeepsRead(m, e);
      EventKeepsTiming(m, e);
    }
  }

  lemma {:induction false} InvHolds(hidden: bool, events: seq<Event>)
    requires Valid(hidden, events)
    ensures Inv(After(hidden, events))
    decreases |events|
  {
    if events != [] {
      InvHolds(hidden, events[..|events| - 1]);
      var m, e := After(hidden, events[..|events| - 1]), events[|events| - 1];
      EventKeepsInv(m, e);
    }
  }
}
