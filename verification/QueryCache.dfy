/**
 The query cache of the page: its records, the additional pages several components may share, who holds which page, and the
 health shown in the header. Every event goes through the same functions as the single record and the single list.
*/
module QueryCaches {
  import opened QueryRecord
  import opened PagedQuery

  type Owner = nat

  /** An additional page in the cache, and the components that hold it. */
  datatype PageRead = PageRead(owners: set<Owner>, state: Snapshot)

  /** One mounted list: its URL, its reader, the pages it holds, and whether it is enabled. */
  datatype Mounted = Mounted(url: string, reader: Reader, held: set<string>, enabled: bool)

  /** The header's summary of every active read. */
  datatype Health = Health(latestAt: Option<int>, latestRead: Option<int>, stale: set<string>, sources: set<string>, errorCount: nat)

  const NoHealth := Health(None, None, {}, {}, 0)

  // ---- What health means ----

  function MetaAt(s: Snapshot): Option<int> {
    if s.meta.Some? then Some(s.meta.value.at) else None
  }

  function ReadAt(s: Snapshot): Option<int> {
    if s.observedAt.Some? then Some(s.observedAt.value) else None
  }

  function Elements(items: seq<string>): set<string> {
    set i | i in items
  }

  function StaleOf(s: Snapshot): set<string> {
    (if s.meta.Some? then Elements(s.meta.value.stale) else {}) + (if s.errorMeta.Some? then Elements(s.errorMeta.value.stale) else {})
  }

  function SourcesOf(s: Snapshot): set<string> {
    (if s.meta.Some? then Elements(s.meta.value.sources) else {}) + (if s.errorMeta.Some? then Elements(s.errorMeta.value.sources) else {})
  }

  predicate Fails(s: Snapshot) {
    s.error.Some? && s.error.value != ""
  }

  ghost predicate IsLatest(latest: Option<int>, active: map<string, Snapshot>, moment: Snapshot -> Option<int>) {
    match latest
    case None => forall u :: u in active ==> moment(active[u]).None?
    case Some(t) =>
      && (exists u :: u in active && moment(active[u]) == Some(t))
      && (forall u :: u in active && moment(active[u]).Some? ==> moment(active[u]).value <= t)
  }

  ghost predicate IsUnion(all: set<string>, active: map<string, Snapshot>, parts: Snapshot -> set<string>) {
    forall x :: x in all <==> exists u :: u in active && x in parts(active[u])
  }

  function Failing(active: map<string, Snapshot>): set<string> {
    set u | u in active && Fails(active[u])
  }

  /** `h` summarises exactly the active reads. */
  ghost predicate IsHealth(h: Health, active: map<string, Snapshot>) {
    && IsLatest(h.latestAt, active, MetaAt)
    && IsLatest(h.latestRead, active, ReadAt)
    && IsUnion(h.stale, active, StaleOf)
    && IsUnion(h.sources, active, SourcesOf)
    && h.errorCount == |Failing(active)|
  }

  lemma LatestIsUnique(a: Option<int>, b: Option<int>, active: map<string, Snapshot>, moment: Snapshot -> Option<int>)
    requires IsLatest(a, active, moment) && IsLatest(b, active, moment)
    ensures a == b
  {
  }

  /** Health is determined by the active reads. */
  lemma HealthIsUnique(g: Health, h: Health, active: map<string, Snapshot>)
    requires IsHealth(g, active) && IsHealth(h, active)
    ensures g == h
  {
    LatestIsUnique(g.latestAt, h.latestAt, active, MetaAt);
    LatestIsUnique(g.latestRead, h.latestRead, active, ReadAt);
    assert g.stale == h.stale && g.sources == h.sources;
  }

  function Later(a: Option<int>, b: Option<int>): Option<int> {
    if a.None? then b else if b.None? || b.value <= a.value then a else b
  }

  function Add(h: Health, s: Snapshot): Health {
    Health(Later(h.latestAt, MetaAt(s)), Later(h.latestRead, ReadAt(s)), h.stale + StaleOf(s), h.sources + SourcesOf(s),
           h.errorCount + (if Fails(s) then 1 else 0))
  }

  lemma AddLatest(latest: Option<int>, active: map<string, Snapshot>, moment: Snapshot -> Option<int>, u: string, s: Snapshot)
    requires IsLatest(latest, active, moment) && u !in active
    ensures IsLatest(Later(latest, moment(s)), active[u := s], moment)
  {
    var more := active[u := s];
    assert more[u] == s && forall v :: v in active ==> more[v] == active[v];
    if latest.Some? {
      var w :| w in active && moment(active[w]) == latest;
      assert w in more && moment(more[w]) == latest;
    }
    assert u in more && moment(more[u]) == moment(s);
  }

  lemma AddUnion(all: set<string>, active: map<string, Snapshot>, parts: Snapshot -> set<string>, u: string, s: Snapshot)
    requires u !in active && IsUnion(all, active, parts)
    ensures IsUnion(all + parts(s), active[u := s], parts)
  {
    var more := active[u := s];
    assert more[u] == s && forall v :: v in active ==> more[v] == active[v];
    forall x ensures x in all + parts(s) <==> exists v :: v in more && x in parts(more[v]) {
      if x in all {
        var v :| v in active && x in parts(active[v]);
        assert v in more && x in parts(more[v]);
      } else if x in parts(s) {
        assert u in more && x in parts(more[u]);
      }
    }
  }

  lemma AddCount(active: map<string, Snapshot>, u: string, s: Snapshot)
    requires u !in active
    ensures |Failing(active[u := s])| == |Failing(active)| + (if Fails(s) then 1 else 0)
  {
    assert Failing(active[u := s]) == if Fails(s) then Failing(active) + {u} else Failing(active);
  }

  lemma AddKeepsHealth(h: Health, active: map<string, Snapshot>, u: string, s: Snapshot)
    requires IsHealth(h, active) && u !in active
    ensures IsHealth(Add(h, s), active[u := s])
  {
    AddLatest(h.latestAt, active, MetaAt, u, s);
    AddLatest(h.latestRead, active, ReadAt, u, s);
    AddUnion(h.stale, active, StaleOf, u, s);
    AddUnion(h.sources, active, SourcesOf, u, s);
    AddCount(active, u, s);
  }

  /** The health of the active reads, counted in any order. */
  ghost function HealthOf(active: map<string, Snapshot>): Health {
    if active == map[] then NoHealth
    else var u :| u in active; Add(HealthOf(active - {u}), active[u])
  }

  lemma HealthWithout(active: map<string, Snapshot>, u: string)
    requires u in active && IsHealth(HealthOf(active - {u}), active - {u})
    ensures IsHealth(Add(HealthOf(active - {u}), active[u]), active)
  {
    hide IsHealth, HealthOf, Add;
    AddKeepsHealth(HealthOf(active - {u}), active - {u}, u, active[u]);
    assert (active - {u})[u := active[u]] == active;
  }

  lemma {:induction false} HealthOfIsHealth(active: map<string, Snapshot>)
    ensures IsHealth(HealthOf(active), active)
    decreases |active|
  {
    hide Add;
    if active != map[] {
      var u :| u in active && HealthOf(active) == Add(HealthOf(active - {u}), active[u]);
      HealthOfIsHealth(active - {u});
      HealthWithout(active, u);
    }
  }

  /** The reads that count: records somebody listens to, and pages no such record shadows. */
  function Active(records: map<string, Record>, pageReads: map<string, PageRead>): map<string, Snapshot> {
    (map u | u in pageReads :: pageReads[u].state) + (map u | u in records && records[u].listeners != map[] :: records[u].state)
  }

  /**
   What counts as active, address by address: a record exactly while somebody listens to it, and then it is the record that counts;
   a further page exactly while it is held and no such record has its address.
  */
  lemma ActiveExactly(records: map<string, Record>, pageReads: map<string, PageRead>, u: string)
    ensures var heard := u in records && records[u].listeners != map[];
            && (u in Active(records, pageReads) <==> heard || u in pageReads)
            && (heard ==> Active(records, pageReads)[u] == records[u].state)
            && (!heard && u in pageReads ==> Active(records, pageReads)[u] == pageReads[u].state)
  {
  }

  /**
   The header in plain words: the latest moment the data is from and the latest read, each the greatest there is; exactly the stale
   and the source marks of the data and of the failures; and the number of reads that show an error.
  */
  lemma HealthInPlainWords(h: Health, active: map<string, Snapshot>)
    requires IsHealth(h, active)
    ensures h.latestAt.None? <==> forall u :: u in active ==> active[u].meta.None?
    ensures h.latestAt.Some? ==>
              && (exists u :: u in active && active[u].meta.Some? && active[u].meta.value.at == h.latestAt.value)
              && (forall u :: u in active && active[u].meta.Some? ==> active[u].meta.value.at <= h.latestAt.value)
    ensures h.latestRead.None? <==> forall u :: u in active ==> active[u].observedAt.None?
    ensures h.latestRead.Some? ==>
              && (exists u :: u in active && active[u].observedAt.Some? && active[u].observedAt.value == h.latestRead.value)
              && (forall u :: u in active && active[u].observedAt.Some? ==> active[u].observedAt.value <= h.latestRead.value)
    ensures forall x :: x in h.stale <==> exists u :: u in active && MarksStale(active[u], x)
    ensures forall x :: x in h.sources <==> exists u :: u in active && MarksSource(active[u], x)
    ensures h.errorCount == |set u | u in active && active[u].error.Some? && active[u].error.value != ""|
  {
    LatestInPlainWords(h, active);
    forall x ensures x in h.stale <==> exists u :: u in active && MarksStale(active[u], x) {
      assert forall u :: u in active ==> (x in StaleOf(active[u]) <==> MarksStale(active[u], x));
    }
    forall x ensures x in h.sources <==> exists u :: u in active && MarksSource(active[u], x) {
      assert forall u :: u in active ==> (x in SourcesOf(active[u]) <==> MarksSource(active[u], x));
    }
    assert Failing(active) == set u | u in active && active[u].error.Some? && active[u].error.value != "";
  }

  lemma LatestInPlainWords(h: Health, active: map<string, Snapshot>)
    requires IsLatest(h.latestAt, active, MetaAt) && IsLatest(h.latestRead, active, ReadAt)
    ensures h.latestAt.None? <==> forall u :: u in active ==> active[u].meta.None?
    ensures h.latestAt.Some? ==>
              && (exists u :: u in active && active[u].meta.Some? && active[u].meta.value.at == h.latestAt.value)
              && (forall u :: u in active && active[u].meta.Some? ==> active[u].meta.value.at <= h.latestAt.value)
    ensures h.latestRead.None? <==> forall u :: u in active ==> active[u].observedAt.None?
    ensures h.latestRead.Some? ==>
              && (exists u :: u in active && active[u].observedAt.Some? && active[u].observedAt.value == h.latestRead.value)
              && (forall u :: u in active && active[u].observedAt.Some? ==> active[u].observedAt.value <= h.latestRead.value)
  {
    if h.latestAt.Some? {
      var u :| u in active && MetaAt(active[u]) == h.latestAt;
      assert active[u].meta.Some?;
      forall v | v in active && active[v].meta.Some? ensures active[v].meta.value.at <= h.latestAt.value {
        assert MetaAt(active[v]).Some?;
      }
    } else {
      forall v | v in active ensures active[v].meta.None? { assert MetaAt(active[v]).None?; }
    }
    if h.latestRead.Some? {
      var u :| u in active && ReadAt(active[u]) == h.latestRead;
      assert active[u].observedAt.Some?;
      forall v | v in active && active[v].observedAt.Some? ensures active[v].observedAt.value <= h.latestRead.value {
        assert ReadAt(active[v]).Some?;
      }
    } else {
      forall v | v in active ensures active[v].observedAt.None? { assert ReadAt(active[v]).None?; }
    }
  }

  predicate MarksStale(s: Snapshot, x: string) {
    (s.meta.Some? && x in s.meta.value.stale) || (s.errorMeta.Some? && x in s.errorMeta.value.stale)
  }

  predicate MarksSource(s: Snapshot, x: string) {
    (s.meta.Some? && x in s.meta.value.sources) || (s.errorMeta.Some? && x in s.errorMeta.value.sources)
  }

  lemma ActiveKept(records: map<string, Record>, url: string, r: Record, pageReads: map<string, PageRead>)
    requires url in records && r.state == records[url].state && (r.listeners == map[] <==> records[url].listeners == map[])
    ensures Active(records[url := r], pageReads) == Active(records, pageReads)
  {
    var heard := map u | u in records && records[u].listeners != map[] :: records[u].state;
    var kept := records[url := r];
    assert heard == map u | u in kept && kept[u].listeners != map[] :: kept[u].state;
  }

  /** The cache key of a further page. Only that it depends on nothing but the list and the cursor matters here. */
  function PageUrl(url: string, cursor: string): string {
    url + "?cursor=" + cursor
  }

  /** The given pages are no longer loading. */
  function Stilled(pages: map<string, PageRead>, which: set<string>): map<string, PageRead> {
    map u | u in pages :: if u in which then pages[u].(state := pages[u].state.(loading := false)) else pages[u]
  }

  /** The pages once a component has let go of all it holds. */
  function Released(pages: map<string, PageRead>, o: Owner): map<string, PageRead> {
    map u | u in pages && pages[u].owners != {o} :: pages[u].(owners := pages[u].owners - {o})
  }

  /** One component's release: every page it held alone is gone, every other keeps its state and its other owners. */
  lemma ReleasedExactly(pages: map<string, PageRead>, o: Owner, u: string)
    requires u in pages ==> pages[u].owners != {}
    ensures u in Released(pages, o) <==> u in pages && exists p :: p in pages[u].owners && p != o
    ensures u in Released(pages, o) ==>
              && Released(pages, o)[u].state == pages[u].state
              && forall p :: p in Released(pages, o)[u].owners <==> p in pages[u].owners && p != o
  {
    if u in pages && pages[u].owners != {o} {
      var q :| q in pages[u].owners;
      assert q == o ==> pages[u].owners - {o} + {o} == pages[u].owners;
      assert pages[u].owners - {o} != {};
      var p :| p in pages[u].owners - {o};
    }
  }

  /** Stilling pages only ends their loading. */
  lemma StilledExactly(pages: map<string, PageRead>, which: set<string>, u: string)
    ensures u in Stilled(pages, which) <==> u in pages
    ensures u in pages ==>
              && Stilled(pages, which)[u].owners == pages[u].owners
              && Stilled(pages, which)[u].state == if u in which then pages[u].state.(loading := false) else pages[u].state
  {
  }

  /** Different cursors of a list are different pages. */
  lemma PageUrlsDiffer(url: string, a: string, b: string)
    requires PageUrl(url, a) == PageUrl(url, b)
    ensures a == b
  {
    var n := |url + "?cursor="|;
    assert PageUrl(url, a)[n..] == a && PageUrl(url, b)[n..] == b;
  }

  /** The given lists have met a hidden tab. */
  function Hidden(lists: map<Owner, Mounted>, which: set<Owner>): map<Owner, Mounted> {
    map o | o in lists :: if o in which then lists[o].(reader := OnHidden(lists[o].reader)) else lists[o]
  }

  lemma StillMore(pages: map<string, PageRead>, some: set<string>, more: set<string>)
    ensures Stilled(Stilled(pages, some), more) == Stilled(pages, some + more)
  {
  }

  lemma HideOneMore(lists: map<Owner, Mounted>, some: set<Owner>, o: Owner)
    requires o in lists && o !in some
    ensures Hidden(lists, some)[o := lists[o].(reader := OnHidden(lists[o].reader))] == Hidden(lists, some + {o})
    ensures Hidden(lists, some)[o] == lists[o]
  {
  }

  predicate ListAttached(l: Mounted) {
    && (l.reader.controller.Some? ==> PageUrl(l.url, l.reader.controller.value.cursor) in l.held)
    && (forall k :: 0 <= k < |l.reader.loose| ==> l.reader.loose[k].aborted)
  }

  class QueryCache {
    var hidden: bool
    var now: nat
    var records: map<string, Record>
    var pageReads: map<string, PageRead>
    var lists: map<Owner, Mounted>
    var queryHealth: Health

    constructor (hidden: bool)
      ensures Valid() && this.hidden == hidden && records == map[] && pageReads == map[] && lists == map[]
    {
      this.hidden := hidden;
      now := 1;
      records := map[];
      pageReads := map[];
      lists := map[];
      queryHealth := NoHealth;
    }

    function Get(url: string): Record
      reads this
    {
      if url in records then records[url] else NewRecord
    }

    /** A page is in a component's held set exactly when the component is among the page's owners; a page without owners is forgotten. */
    ghost predicate Owned()
      reads `pageReads, `lists
    {
      && (forall u :: u in pageReads ==> pageReads[u].owners != {})
      && (forall u, o :: u in pageReads && o in pageReads[u].owners ==> o in lists && u in lists[o].held)
      && (forall u, o :: o in lists && u in lists[o].held ==> u in pageReads && o in pageReads[u].owners)
    }

    /** The page a list is waiting for is one it holds; a fetch it dropped is aborted. */
    ghost predicate Attached()
      reads `lists
    {
      forall o :: o in lists ==> ListAttached(lists[o])
    }

    /** The header always shows the health of exactly what is active. */
    ghost predicate Healthy()
      reads `records, `pageReads, `queryHealth
    {
      queryHealth == HealthOf(Active(records, pageReads))
    }

    ghost predicate Valid()
      reads this
    {
      Healthy() && Owned() && Attached()
    }

    method UpdateHealth()
      modifies `queryHealth
      ensures Healthy()
    {
      var active := Active(records, pageReads);
      var h, todo := NoHealth, active.Keys;
      ghost var done: map<string, Snapshot> := map[];
      while todo != {}
        invariant todo <= active.Keys && IsHealth(h, done)
        invariant done.Keys == active.Keys - todo && forall u :: u in done ==> done[u] == active[u]
      {
        var u :| u in todo;
        AddKeepsHealth(h, done, u, active[u]);
        h := Add(h, active[u]);
        done := done[u := active[u]];
        todo := todo - {u};
      }
      assert done == active;
      HealthOfIsHealth(active);
      HealthIsUnique(h, HealthOf(active), active);
      queryHealth := h;
    }

    // ---- Records ----

    /** Keeps a record of which nothing shown changed. */
    method Keep(url: string, r: Record)
      requires Healthy() && url in records
      requires r.state == records[url].state && (r.listeners == map[] <==> records[url].listeners == map[])
      modifies `records
      ensures Healthy() && records == old(records)[url := r]
    {
      hide HealthOf;
      ActiveKept(records, url, r, pageReads);
      records := records[url := r];
    }

    method Publish(url: string, r: Record)
      modifies `records, `queryHealth
      ensures Healthy() && records == old(records)[url := r]
    {
      records := records[url := r];
      UpdateHealth();
    }

    /** `Math.min` of the intervals, as far as a timer cares. */
    method MayPoll(listeners: map<Listener, Interval>) returns (polls: bool)
      ensures polls == Polls(listeners)
    {
      var todo := listeners.Keys;
      var broken, timed := false, false;
      while todo != {}
        invariant todo <= listeners.Keys
        invariant broken <==> exists l :: l in listeners && l !in todo && (listeners[l].NotANumber? || (listeners[l].Millis? && listeners[l].ms <= 0))
        invariant timed <==> exists l :: l in listeners && l !in todo && listeners[l].Millis?
      {
        var l :| l in todo;
        match listeners[l] {
          case NotANumber => broken := true;
          case Millis(ms) => timed := true; if ms <= 0 { broken := true; }
          case Infinite =>
        }
        todo := todo - {l};
      }
      polls := !broken && timed;
    }

    method ScheduleRead(url: string)
      requires Healthy() && url in records
      modifies `records
      ensures Healthy() && records == old(records)[url := Schedule(old(records)[url], hidden)]
    {
      hide Healthy;
      var r := ClearSchedule(records[url]);
      if !hidden && r.listeners != map[] {
        var polls := MayPoll(r.listeners);
        if polls { r := r.(timer := Armed); }
      }
      Keep(url, r);
    }

    method AbortRead(url: string)
      requires Healthy() && url in records
      modifies `records
      ensures Healthy() && records == old(records)[url := Abort(old(records)[url])]
    {
      hide Healthy;
      var r := records[url];
      if r.flight.Some? { r := r.(flight := Some(r.flight.value.(aborted := true))); }
      Keep(url, r);
    }

    method RequestRead(url: string, refreshAfterCurrent: bool)
      requires Healthy() && url in records
      modifies `records, `queryHealth
      ensures Healthy() && records == old(records)[url := Request(old(records)[url], hidden, refreshAfterCurrent, now)]
    {
      hide Healthy;
      var r := records[url];
      if hidden || r.listeners == map[] {
        Keep(url, r);
      } else if r.flight.Some? {
        if refreshAfterCurrent || r.flight.value.aborted { r := r.(pendingRefresh := true); }
        Keep(url, r);
      } else {
        r := ClearSchedule(r).(pendingRefresh := false);
        r := r.(flight := Some(Flight(false, Sendable(r.etag), now, Fetching, None, None)));
        Publish(url, r.(state := r.state.(loading := r.state.meta.None?)));
      }
    }

    /** The `finally` of a read. */
    method SettleRead(url: string)
      requires Healthy() && url in records && records[url].flight.Some?
      modifies `records, `queryHealth
      ensures Healthy() && records == old(records)[url := Settle(old(records)[url], hidden, now)]
    {
      hide Healthy;
      var aborted := records[url].flight.value.aborted;
      Keep(url, records[url].(flight := None));
      if aborted && records[url].state.loading {
        Publish(url, records[url].(state := records[url].state.(loading := false)));
      }
      if records[url].pendingRefresh && !hidden && records[url].listeners != map[] {
        RequestRead(url, false);
      } else {
        ScheduleRead(url);
      }
    }

    method FailRead(url: string, message: string, meta: Option<ErrorMeta>)
      requires Healthy() && url in records && records[url].flight.Some?
      modifies `records, `queryHealth
      ensures Healthy() && records == old(records)[url := Settle(Fail(old(records)[url], message, meta), hidden, now)]
    {
      hide Healthy;
      if !records[url].flight.value.aborted {
        Publish(url, records[url].(state := records[url].state.(loading := false, error := Some(message), errorMeta := meta)));
      }
      SettleRead(url);
    }

    // ---- The events of a record ----

    /** The server answers the read in flight; `asOf` is its current version. Nothing of it is visible yet. */
    method ServerAnswers(url: string, answer: Answer, asOf: Option<Version>)
      requires Healthy() && url in records && records[url].flight.Some?
      modifies `records
      ensures Healthy()
      ensures var r := old(records)[url];
              records == old(records)[url := r.(flight := Some(r.flight.value.(answer := Some(answer), asOf := asOf)))]
    {
      hide Healthy;
      var r := records[url];
      Keep(url, r.(flight := Some(r.flight.value.(answer := Some(answer), asOf := asOf))));
    }

    /** Time passes. */
    method Tick()
      requires Valid()
      modifies `now
      ensures Valid() && now == old(now) + 1
    {
      now := now + 1;
    }

    method SubscribeTo(url: string, l: Listener, interval: Interval)
      requires Healthy()
      modifies `records, `queryHealth
      ensures Healthy() && records == old(records)[url := Step(old(Get(url)), hidden, now, Subscribe(l, interval))]
    {
      hide Healthy;
      var r := Get(url);
      Publish(url, r.(listeners := r.listeners[l := interval]));
      if records[url].state.meta.None? { RequestRead(url, false); } else { ScheduleRead(url); }
    }

    method UnsubscribeFrom(url: string, l: Listener)
      requires Healthy() && url in records
      modifies `records, `queryHealth
      ensures Healthy() && records == old(records)[url := Step(old(records)[url], hidden, now, Unsubscribe(l))]
    {
      hide Healthy;
      var r := records[url].(listeners := records[url].listeners - {l});
      if r.listeners == map[] {
        r := ClearSchedule(r);
        if r.flight.Some? { r := r.(flight := Some(r.flight.value.(aborted := true))); }
      }
      Publish(url, r);
    }

    method RefreshQuery(url: string)
      requires Healthy()
      modifies `records, `queryHealth
      ensures Healthy() && records == old(records)[url := Step(old(Get(url)), hidden, now, Invalidate)]
    {
      hide Healthy;
      if url !in records { Publish(url, NewRecord); }
      RequestRead(url, true);
    }

    method TimerFired(url: string)
      requires Healthy() && url in records && records[url].timer.Armed?
      modifies `records, `queryHealth
      ensures Healthy() && records == old(records)[url := Step(old(records)[url], hidden, now, TimerFires)]
    {
      hide Healthy;
      Keep(url, records[url].(timer := Fired));
      RequestRead(url, false);
    }

    method ResponseArrives(url: string)
      requires Healthy() && url in records && records[url].flight.Some? && records[url].flight.value.phase.Fetching?
      requires records[url].flight.value.answer.Some?
      modifies `records, `queryHealth
      ensures Healthy() && records == old(records)[url := Step(old(records)[url], hidden, now, Arrive)]
    {
      hide Healthy;
      var r := records[url];
      if r.flight.value.aborted {
        SettleRead(url);
      } else {
        match r.flight.value.answer.value {
          case NotModified =>
            if r.state.meta.None? {
              FailRead(url, InvalidResponse, None);
            } else {
              r := r.(readVersion := r.readVersion + 1);
              Publish(url, r.(state := r.state.(loading := false, observedAt := Some(now), error := None, errorMeta := None)));
              SettleRead(url);
            }
          case Fresh(v) => Keep(url, r.(flight := Some(r.flight.value.(phase := Reading(v)))));
          case Failure(message, meta) => FailRead(url, message, meta);
        }
      }
    }

    method BodyParsed(url: string, valid: bool)
      requires Healthy() && url in records && records[url].flight.Some? && records[url].flight.value.phase.Reading?
      modifies `records, `queryHealth
      ensures Healthy() && records == old(records)[url := Step(old(records)[url], hidden, now, Body(valid))]
    {
      hide Healthy;
      var r := records[url];
      if r.flight.value.aborted {
        SettleRead(url);
      } else if !valid {
        FailRead(url, InvalidResponse, None);
      } else {
        var v := r.flight.value.phase.version;
        r := r.(etag := Some(TagOf(v)), readVersion := r.readVersion + 1);
        Publish(url, r.(state := Snapshot(Some(v.data), Some(v.meta), false, None, None, Some(now))));
        SettleRead(url);
      }
    }

    /** The tab is shown: every record somebody listens to asks for a refresh. */
    method ShowTab()
      requires Valid() && hidden
      modifies this
      ensures Valid() && !hidden
      ensures records == map u | u in old(records) :: Step(old(records)[u], true, now, Show)
      ensures unchanged(`now) && unchanged(`pageReads) && unchanged(`lists)
    {
      hide Healthy;
      hidden := false;
      var todo := records.Keys;
      while todo != {}
        invariant todo <= records.Keys == old(records).Keys && Valid() && !hidden
        invariant unchanged(`now) && unchanged(`pageReads) && unchanged(`lists)
        invariant forall u :: u in records ==>
          records[u] == if u in todo then old(records)[u] else Step(old(records)[u], true, now, Show)
      {
        var u :| u in todo;
        if records[u].listeners != map[] { RequestRead(u, true); }
        todo := todo - {u};
      }
    }

    /** The tab is hidden: timers stop, reads are aborted, and every list ends its epoch and its page reads. */
    method HideTab()
      requires Valid() && !hidden
      modifies this
      ensures Valid() && hidden
      ensures records == map u | u in old(records) :: Step(old(records)[u], false, now, Hide)
      ensures lists == Hidden(old(lists), old(lists).Keys) && pageReads == Stilled(old(pageReads), old(pageReads).Keys)
      ensures unchanged(`now)
    {
      hide Healthy;
      hidden := true;
      var todo := records.Keys;
      while todo != {}
        invariant todo <= records.Keys == old(records).Keys && Valid() && hidden
        invariant unchanged(`now) && unchanged(`pageReads) && unchanged(`lists)
        invariant forall u :: u in records ==> records[u] == if u in todo then old(records)[u] else Step(old(records)[u], false, now, Hide)
      {
        var u :| u in todo;
        Keep(u, ClearSchedule(records[u]));
        AbortRead(u);
        todo := todo - {u};
      }
      HideLists();
    }

    method HideLists()
      requires Valid()
      modifies `lists, `pageReads, `queryHealth
      ensures Valid() && lists == Hidden(old(lists), old(lists).Keys) && pageReads == Stilled(old(pageReads), old(pageReads).Keys)
    {
      hide Healthy, Attached, OnHidden, Owned;
      HasOwners();
      var todo := lists.Keys;
      ghost var touched: set<string> := {};
      while todo != {}
        invariant todo <= lists.Keys && Valid()
        invariant lists == Hidden(old(lists), old(lists).Keys - todo)
        invariant pageReads == Stilled(old(pageReads), touched)
        invariant forall u :: u in pageReads && u !in touched ==> pageReads[u].owners <= todo
      {
        var o :| o in todo;
        ghost var done := old(lists).Keys - todo;
        HideOneMore(old(lists), done, o);
        StillMore(old(pageReads), touched, lists[o].held);
        touched := touched + lists[o].held;
        HideList(o);
        todo := todo - {o};
        assert old(lists).Keys - todo == done + {o};
      }
      HasOwners();
    }

    lemma HasOwners()
      requires Owned()
      ensures forall u :: u in pageReads ==> pageReads[u].owners != {} && pageReads[u].owners <= lists.Keys
    {
    }

    method HideList(o: Owner)
      requires Valid() && o in lists
      modifies `lists, `pageReads, `queryHealth
      ensures Valid() && lists == old(lists)[o := old(lists)[o].(reader := OnHidden(old(lists)[o].reader))]
      ensures pageReads == Stilled(old(pageReads), old(lists)[o].held)
      ensures forall u :: u in pageReads ==> pageReads[u].owners == old(pageReads)[u].owners
      ensures forall u :: u in pageReads && u !in old(lists)[o].held ==> o !in pageReads[u].owners
    {
      hide Healthy;
      var l := lists[o];
      pageReads := Stilled(pageReads, l.held);
      lists := lists[o := l.(reader := OnHidden(l.reader))];
      UpdateHealth();
    }

    // ---- Additional pages ----

    method Mount(o: Owner, url: string, enabled: bool)
      requires Valid() && o !in lists
      modifies `lists
      ensures Valid() && lists == old(lists)[o := Mounted(url, NewReader, {}, enabled)]
    {
      hide Healthy;
      lists := lists[o := Mounted(url, NewReader, {}, enabled)];
    }

    /** Drops the component's claim on each page it holds, and forgets the pages nobody else holds. */
    method ReleaseHeldPages(o: Owner)
      requires Valid() && o in lists && lists[o].reader.controller.None?
      modifies `lists, `pageReads, `queryHealth
      ensures Valid() && lists == old(lists)[o := old(lists)[o].(held := {})]
      ensures pageReads == Released(old(pageReads), o)
    {
      hide Healthy;
      var held := lists[o].held;
      var todo := held;
      assert forall u :: u in pageReads && u !in held ==> pageReads[u].owners - {o} == pageReads[u].owners;
      while todo != {}
        invariant todo <= held && lists == old(lists)
        invariant pageReads == map u | u in old(pageReads) && (u in todo || old(pageReads)[u].owners != {o}) ::
                                 if u in todo then old(pageReads)[u] else old(pageReads)[u].(owners := old(pageReads)[u].owners - {o})
      {
        var u :| u in todo;
        var read := pageReads[u].(owners := pageReads[u].owners - {o});
        pageReads := if read.owners == {} then pageReads - {u} else pageReads[u := read];
        todo := todo - {u};
      }
      lists := lists[o := lists[o].(held := {})];
      UpdateHealth();
    }

    /** The list ends its epoch and lets its pages go. */
    method EndEpoch(o: Owner, r: Reader)
      requires Valid() && o in lists && r.controller.None? && forall k :: 0 <= k < |r.loose| ==> r.loose[k].aborted
      modifies `lists, `pageReads, `queryHealth
      ensures Valid() && lists == old(lists)[o := old(lists)[o].(reader := r, held := {})]
      ensures pageReads == Released(old(pageReads), o)
    {
      hide Healthy;
      lists := lists[o := lists[o].(reader := r)];
      ReleaseHeldPages(o);
    }

    /** The list goes away, or turns to another URL: its epoch ends and its pages are released. */
    method Unmount(o: Owner)
      requires Valid() && o in lists
      modifies this
      ensures Valid() && lists == old(lists) - {o} && pageReads == Released(old(pageReads), o)
      ensures unchanged(`hidden) && unchanged(`now) && unchanged(`records)
    {
      hide Healthy;
      EndEpoch(o, OnHidden(lists[o].reader));
      lists := lists - {o};
    }

    /** `refresh`: a new epoch without pages, and a base read that starts from now on. */
    method RefreshList(o: Owner)
      requires Valid() && o in lists
      modifies this
      ensures var url := old(lists)[o].url;
              && Valid() && lists == old(lists)[o := old(lists)[o].(reader := OnRefresh(old(lists)[o].reader, old(Get(url)).readVersion), held := {})]
              && records == old(records)[url := Step(Abort(old(Get(url))), hidden, now, Invalidate)]
      ensures unchanged(`hidden) && unchanged(`now) && pageReads == Released(old(pageReads), o)
    {
      var l := lists[o];
      EndEpoch(o, OnRefresh(l.reader, Get(l.url).readVersion));
      RereadBase(l.url);
    }

    /** The read in flight is aborted, and another asked for. */
    method RereadBase(url: string)
      requires Healthy()
      modifies `records, `queryHealth
      ensures Healthy() && records == old(records)[url := Step(Abort(old(Get(url))), hidden, now, Invalidate)]
    {
      hide Healthy;
      if url !in records { Publish(url, NewRecord); }
      AbortRead(url);
      RefreshQuery(url);
    }

    /** The list is switched on or off: its epoch ends and its pages are released, the rest of what it shows stays. */
    method Enable(o: Owner, enabled: bool)
      requires Valid() && o in lists
      modifies this
      ensures Valid() && pageReads == Released(old(pageReads), o)
      ensures lists == old(lists)[o := Mounted(old(lists)[o].url, Drop(old(lists)[o].reader), {}, enabled)]
      ensures unchanged(`hidden) && unchanged(`now) && unchanged(`records)
    {
      EndEpoch(o, Drop(lists[o].reader));
      Switch(o, enabled);
    }

    method Switch(o: Owner, enabled: bool)
      requires Valid() && o in lists
      modifies `lists
      ensures Valid() && lists == old(lists)[o := old(lists)[o].(enabled := enabled)]
    {
      hide Healthy;
      lists := lists[o := lists[o].(enabled := enabled)];
    }

    /** `loadMore`: nothing happens unless the list is enabled, has a next cursor and no page read in flight. */
    method LoadMore(o: Owner) returns (asked: bool)
      requires Valid() && o in lists
      modifies this
      ensures Valid() && asked == (old(lists)[o].enabled && MayLoad(old(lists)[o].reader, old(Get(lists[o].url)), hidden))
      ensures !asked ==> unchanged(this)
      ensures asked ==>
                var l := old(lists)[o];
                var page := PageUrl(l.url, NextCursor(l.reader, old(Get(l.url))).value);
                var read := if page in old(pageReads) then old(pageReads)[page] else PageRead({}, Blank);
                && lists == old(lists)[o := l.(reader := OnLoadMore(l.reader, old(Get(l.url))), held := l.held + {page})]
                && pageReads == old(pageReads)[page := PageRead(read.owners + {o}, read.state.(loading := true))]
      ensures unchanged(`hidden) && unchanged(`now) && unchanged(`records)
    {
      hide Healthy;
      var l := lists[o];
      var base := Get(l.url);
      asked := l.enabled && MayLoad(l.reader, base, hidden);
      if !asked { return; }
      var page := PageUrl(l.url, NextCursor(l.reader, base).value);
      var read := if page in pageReads then pageReads[page] else PageRead({}, Blank);
      pageReads := pageReads[page := PageRead(read.owners + {o}, read.state.(loading := true))];
      lists := lists[o := l.(reader := OnLoadMore(l.reader, base), held := l.held + {page})];
      UpdateHealth();
    }

    /** A page arrives: heard only from the list's current fetch. */
    method PageArrives(o: Owner, w: Which, rows: seq<string>, meta: Meta)
      requires Valid() && o in lists && Has(lists[o].reader, w)
      modifies this
      ensures Valid() && lists == old(lists)[o := old(lists)[o].(reader := OnPage(old(lists)[o].reader, w, rows, meta, now))]
      ensures unchanged(`hidden) && unchanged(`now) && unchanged(`records)
      ensures pageReads == if StillCurrent(old(lists)[o].reader, The(old(lists)[o].reader, w)) then
                             var page := PageUrl(old(lists)[o].url, The(old(lists)[o].reader, w).cursor);
                             old(pageReads)[page := old(pageReads)[page].(state := Snapshot(Some(rows), Some(meta), false, None, None, Some(now)))]
                           else old(pageReads)
    {
      hide Healthy;
      var l := lists[o];
      if StillCurrent(l.reader, The(l.reader, w)) {
        var page := PageUrl(l.url, The(l.reader, w).cursor);
        pageReads := pageReads[page := pageReads[page].(state := Snapshot(Some(rows), Some(meta), false, None, None, Some(now)))];
        lists := lists[o := l.(reader := OnPage(l.reader, w, rows, meta, now))];
        UpdateHealth();
      } else {
        lists := lists[o := l.(reader := Finish(l.reader, w))];
      }
    }

    method PageFails(o: Owner, w: Which, message: string, meta: Option<ErrorMeta>)
      requires Valid() && o in lists && Has(lists[o].reader, w)
      modifies this
      ensures Valid() && lists == old(lists)[o := old(lists)[o].(reader := OnPageError(old(lists)[o].reader, w, message, meta))]
      ensures unchanged(`hidden) && unchanged(`now) && unchanged(`records)
      ensures pageReads == if StillCurrent(old(lists)[o].reader, The(old(lists)[o].reader, w)) then
                             var page := PageUrl(old(lists)[o].url, The(old(lists)[o].reader, w).cursor);
                             var state := old(pageReads)[page].state.(loading := false, error := Some(message), errorMeta := meta);
                             old(pageReads)[page := old(pageReads)[page].(state := state)]
                           else old(pageReads)
    {
      hide Healthy;
      var l := lists[o];
      if StillCurrent(l.reader, The(l.reader, w)) {
        var page := PageUrl(l.url, The(l.reader, w).cursor);
        var state := pageReads[page].state.(loading := false, error := Some(message), errorMeta := meta);
        pageReads := pageReads[page := pageReads[page].(state := state)];
        lists := lists[o := l.(reader := OnPageError(l.reader, w, message, meta))];
        UpdateHealth();
      } else {
        lists := lists[o := l.(reader := Finish(l.reader, w))];
      }
    }
  }
}
