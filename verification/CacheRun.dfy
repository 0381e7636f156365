/** A whole run of the cache: whatever happens to whichever record, each record lives a life of the single-record machine. */
module CacheRuns {
  import opened QueryRecord
  import opened QueryGuarantees
  import opened PagedQuery
  import opened QueryCaches

  type RecordEvent = QueryRecord.Event

  /** Something happens to one record, or (the tab is hidden or shown) to all. */
  datatype Happening = At(url: string, event: RecordEvent) | All(event: RecordEvent)

  function EventFor(h: Happening, url: string): RecordEvent {
    if h.All? || h.url == url then h.event else Elsewhere
  }

  /** The run as one record sees it. */
  function Seen(log: seq<Happening>, url: string): (events: seq<RecordEvent>)
    ensures |events| == |log|
  {
    if log == [] then [] else Seen(log[..|log| - 1], url) + [EventFor(log[|log| - 1], url)]
  }

  lemma SeenNext(hidden: bool, log: seq<Happening>, h: Happening, url: string)
    requires Valid(hidden, Seen(log, url)) && Enabled(After(hidden, Seen(log, url)), EventFor(h, url))
    ensures Valid(hidden, Seen(log + [h], url))
    ensures After(hidden, Seen(log + [h], url)) == Next(After(hidden, Seen(log, url)), EventFor(h, url))
  {
    assert (log + [h])[..|log|] == log;
    Then(hidden, Seen(log, url), EventFor(h, url));
  }

  /** What an event does to the record, the clock and the tab. */
  lemma NextIsStep(m: Machine, e: RecordEvent)
    ensures !e.Serve? ==> Next(m, e).record == Step(m.record, m.hidden, m.now, e)
    ensures Next(m, e).now == m.now + 1
    ensures Next(m, e).hidden == if e.Hide? then true else if e.Show? then false else m.hidden
  {
  }

  /** What the server has while a read is in flight. */
  function AsOf(m: Machine): Option<Version>
    requires m.record.flight.Some?
  {
    if m.ledger.versions != [] then Some(Current(m.ledger)) else m.record.flight.value.asOf
  }

  /** A server's answer is noted in the read it answers, with what was current. */
  lemma NextIsServed(m: Machine, a: Answer)
    requires m.record.flight.Some?
    ensures Next(m, Serve(a)).record ==
            m.record.(flight := Some(m.record.flight.value.(answer := Some(a), asOf := AsOf(m))))
  {
  }

  lemma QuietRecord(hidden: bool, now: nat)
    ensures Step(NewRecord, hidden, now, Hide) == NewRecord && Step(NewRecord, hidden, now, Show) == NewRecord
    ensures Step(NewRecord, hidden, now, AbortRead) == NewRecord && Step(NewRecord, hidden, now, Elsewhere) == NewRecord
  {
  }

  /** What an event asks of the record it happens to. */
  predicate Fits(r: Record, e: RecordEvent) {
    match e
    case Unsubscribe(l) => l in r.listeners
    case TimerFires => r.timer.Armed?
    case Serve(_) => r.flight.Some?
    case Arrive => r.flight.Some? && r.flight.value.phase.Fetching? && r.flight.value.answer.Some?
    case NetworkFails(_) => r.flight.Some?
    case Body(_) => r.flight.Some? && r.flight.value.phase.Reading?
    case AbortSettles => r.flight.Some? && r.flight.value.aborted
    case _ => true
  }

  lemma EnabledFits(m: Machine, e: RecordEvent)
    requires Enabled(m, e)
    ensures Fits(m.record, e) && (Fits(NewRecord, e) || m.record != NewRecord)
  {
  }

  class CacheRun {
    const cache: QueryCache
    const startHidden: bool
    ghost var log: seq<Happening>

    constructor (cache: QueryCache)
      requires cache.Valid() && cache.records == map[] && cache.now == 1
      ensures Valid() && this.cache == cache && log == [] && startHidden == cache.hidden
    {
      this.cache := cache;
      startHidden := cache.hidden;
      log := [];
    }

    /** The machine of one record, with what the server did meanwhile. */
    ghost function MachineOf(url: string): Machine
      reads this
    {
      After(startHidden, Seen(log, url))
    }

    /** The record is what its own life makes of it. */
    ghost predicate Follows(url: string)
      reads this, cache
    {
      && QueryRecord.Valid(startHidden, Seen(log, url))
      && MachineOf(url).record == cache.Get(url) && MachineOf(url).hidden == cache.hidden && MachineOf(url).now == cache.now
    }

    ghost predicate Valid()
      reads this, cache
    {
      cache.Valid() && forall url: string :: Follows(url)
    }

    /** What it takes for one happening to keep every record on its life. */
    ghost method Note(h: Happening)
      requires cache.Valid()
      requires forall url: string :: QueryRecord.Valid(startHidden, Seen(log, url)) && Enabled(MachineOf(url), EventFor(h, url))
      requires forall url: string ::
        var m := Next(MachineOf(url), EventFor(h, url));
        m.record == cache.Get(url) && m.hidden == cache.hidden && m.now == cache.now
      modifies `log
      ensures Valid() && log == old(log) + [h]
    {
      hide Next, Enabled, QueryRecord.Valid, After;
      forall url: string
        ensures QueryRecord.Valid(startHidden, Seen(log + [h], url))
        ensures After(startHidden, Seen(log + [h], url)) == Next(MachineOf(url), EventFor(h, url))
      {
        SeenNext(startHidden, log, h, url);
      }
      log := log + [h];
    }

    /** What somebody asks of a record. */
    method ActAsked(url: string, e: RecordEvent)
      requires cache.Valid() && Fits(cache.Get(url), e)
      requires e.Subscribe? || e.Unsubscribe? || e.Invalidate? || e.AbortRead? || e.TimerFires?
      modifies cache`records, cache`queryHealth
      ensures cache.Valid() && cache.Get(url) == Step(old(cache.Get(url)), cache.hidden, cache.now, e)
      ensures forall u :: u != url ==> cache.Get(u) == old(cache.Get(u))
    {
      hide Step, QueryCache.Healthy, QueryCache.Owned, QueryCache.Attached;
      match e
      case Subscribe(l, interval) => cache.SubscribeTo(url, l, interval);
      case Unsubscribe(l) => cache.UnsubscribeFrom(url, l);
      case Invalidate => cache.RefreshQuery(url);
      case AbortRead => AbortAt(url);
      case TimerFires => cache.TimerFired(url);
    }

    /** What comes of the read in flight. */
    method ActRead(url: string, e: RecordEvent)
      requires cache.Valid() && Fits(cache.Get(url), e) && url in cache.records
      requires e.Arrive? || e.Body? || e.NetworkFails? || e.AbortSettles?
      modifies cache`records, cache`queryHealth
      ensures cache.Valid() && cache.Get(url) == Step(old(cache.Get(url)), cache.hidden, cache.now, e)
      ensures forall u :: u != url ==> cache.Get(u) == old(cache.Get(u))
    {
      hide Step, QueryCache.Healthy, QueryCache.Owned, QueryCache.Attached;
      match e
      case Arrive => cache.ResponseArrives(url);
      case Body(valid) => cache.BodyParsed(url, valid);
      case NetworkFails(message) => EndAt(url, e);
      case AbortSettles => EndAt(url, e);
    }

    /** What the cache does at an event of one record; `asOf` is what the server has when it answers. */
    method Act(url: string, e: RecordEvent, asOf: Option<Version>)
      requires cache.Valid() && Follows(url) && Enabled(MachineOf(url), e) && !e.Hide? && !e.Show? && !e.Elsewhere?
      requires e.Serve? ==> asOf == AsOf(MachineOf(url))
      modifies cache`records, cache`queryHealth
      ensures cache.Valid() && cache.Get(url) == Next(MachineOf(url), e).record
      ensures forall u :: u != url ==> cache.Get(u) == old(cache.Get(u))
    {
      EnabledFits(MachineOf(url), e);
      NextIsStep(MachineOf(url), e);
      hide Next, Step, After, Enabled, QueryRecord.Valid, QueryCache.Valid;
      if e.Serve? {
        AnswerAt(url, e.answer, asOf);
      } else if e.Arrive? || e.Body? || e.NetworkFails? || e.AbortSettles? {
        ActRead(url, e);
      } else if e.Publish? {
        PublishIsQuiet(cache.Get(url), cache.hidden, cache.now, e);
      } else {
        ActAsked(url, e);
      }
    }

    lemma PublishIsQuiet(r: Record, hidden: bool, now: nat, e: RecordEvent)
      requires e.Publish?
      ensures Step(r, hidden, now, e) == r
    {
    }

    method AbortAt(url: string)
      requires cache.Valid()
      modifies cache`records
      ensures cache.Valid() && cache.Get(url) == Step(old(cache.Get(url)), cache.hidden, cache.now, AbortRead)
      ensures forall u :: u != url ==> cache.Get(u) == old(cache.Get(u))
    {
      QuietRecord(cache.hidden, cache.now);
      if url in cache.records { cache.AbortRead(url); }
    }

    method AnswerAt(url: string, a: Answer, asOf: Option<Version>)
      requires cache.Valid() && MachineOf(url).record == cache.Get(url) && MachineOf(url).record.flight.Some?
      requires asOf == AsOf(MachineOf(url))
      modifies cache`records
      ensures cache.Valid() && cache.Get(url) == Next(MachineOf(url), Serve(a)).record
      ensures forall u :: u != url ==> cache.Get(u) == old(cache.Get(u))
    {
      NextIsServed(MachineOf(url), a);
      hide Next, After;
      cache.ServerAnswers(url, a, asOf);
    }

    method EndAt(url: string, e: RecordEvent)
      requires cache.Valid() && url in cache.records && cache.records[url].flight.Some?
      requires e.NetworkFails? || (e.AbortSettles? && cache.records[url].flight.value.aborted)
      modifies cache`records, cache`queryHealth
      ensures cache.Valid() && cache.Get(url) == Step(old(cache.Get(url)), cache.hidden, cache.now, e)
      ensures forall u :: u != url ==> cache.Get(u) == old(cache.Get(u))
    {
      if e.NetworkFails? { cache.FailRead(url, e.message, None); } else { cache.SettleRead(url); }
    }

    /** One event of one record. */
    method Happens(url: string, e: RecordEvent, asOf: Option<Version>)
      requires Valid() && Enabled(MachineOf(url), e) && !e.Hide? && !e.Show? && !e.Elsewhere?
      requires e.Serve? ==> asOf == AsOf(MachineOf(url))
      modifies this, cache
      ensures Valid() && log == old(log) + [At(url, e)] && cache.lists == old(cache.lists)
    {
      ghost var h := At(url, e);
      hide Next, After, Step, Enabled, AsOf, QueryRecord.Valid, QueryCache.Healthy, QueryCache.Owned, QueryCache.Attached;
      forall u: string
        ensures QueryRecord.Valid(startHidden, Seen(log, u)) && Enabled(MachineOf(u), EventFor(h, u))
        ensures var m := Next(MachineOf(u), EventFor(h, u));
                && (u != url ==> m.record == cache.Get(u)) && m.hidden == cache.hidden && m.now == cache.now + 1
      {
        assert Follows(u);
        NextIsStep(MachineOf(u), EventFor(h, u));
        ElsewhereIsQuiet(MachineOf(u));
      }
      assert Follows(url);
      Act(url, e, asOf);
      cache.Tick();
      Note(h);
    }

    lemma ElsewhereIsQuiet(m: Machine)
      ensures Next(m, Elsewhere).record == m.record && Enabled(m, Elsewhere)
    {
    }

    /** What the cache does when the tab is hidden or shown. */
    method Toggle(hides: bool)
      requires cache.Valid() && cache.hidden == !hides
      modifies cache
      ensures cache.Valid() && cache.hidden == hides && cache.now == old(cache.now) + 1
      ensures forall u :: cache.Get(u) == Step(old(cache.Get(u)), !hides, old(cache.now), if hides then Hide else Show)
    {
      QuietRecord(cache.hidden, cache.now);
      hide Step, Hidden, Stilled, QueryCache.Healthy, QueryCache.Owned, QueryCache.Attached;
      if hides { cache.HideTab(); } else { cache.ShowTab(); }
      cache.Tick();
    }

    /** The tab is hidden or shown. */
    method Visibility(hides: bool)
      requires Valid() && cache.hidden == !hides
      modifies this, cache
      ensures Valid() && log == old(log) + [All(if hides then Hide else Show)] && cache.hidden == hides
    {
      ghost var h := All(if hides then Hide else Show);
      forall u: string
        ensures QueryRecord.Valid(startHidden, Seen(log, u)) && Enabled(MachineOf(u), h.event)
        ensures var m := Next(MachineOf(u), h.event);
                m.record == Step(cache.Get(u), cache.hidden, cache.now, h.event) && m.hidden == hides && m.now == cache.now + 1
      {
        assert Follows(u);
        NextIsStep(MachineOf(u), h.event);
      }
      hide Next, After, Step, Enabled, QueryRecord.Valid, QueryCache.Valid, QueryCache.Get;
      Toggle(hides);
      Note(h);
    }

    /** `refresh` of a list: the base read is aborted, then another one is asked for. */
    method Refresh(o: Owner)
      requires Valid() && o in cache.lists
      modifies this, cache
      ensures var url := old(cache.lists)[o].url;
              Valid() && log == old(log) + [At(url, AbortRead), At(url, Invalidate)]
      ensures o in cache.lists
      ensures cache.lists[o].reader == OnRefresh(old(cache.lists)[o].reader, old(cache.Get(cache.lists[o].url)).readVersion)
    {
      hide QueryCache.Valid, Step, After, Next;
      var url := cache.lists[o].url;
      ghost var version := cache.Get(url).readVersion;
      SkipPages(o);
      Happens(url, AbortRead, None);
      Happens(url, Invalidate, None);
    }

    /** The list's own part of `refresh`. */
    method SkipPages(o: Owner)
      requires Valid() && o in cache.lists
      modifies cache
      ensures Valid() && cache.lists.Keys == old(cache.lists).Keys && cache.lists[o].url == old(cache.lists)[o].url
      ensures cache.lists[o].reader == OnRefresh(old(cache.lists)[o].reader, old(cache.Get(cache.lists[o].url)).readVersion)
    {
      var l := cache.lists[o];
      var r := OnRefresh(l.reader, cache.Get(l.url).readVersion);
      hide After, QueryRecord.Valid, QueryCache.Healthy, QueryCache.Owned, QueryCache.Attached;
      cache.EndEpoch(o, r);
      forall u: string ensures Follows(u) {
        assert old(Follows(u));
        assert cache.Get(u) == old(cache.Get(u));
      }
    }

    // ---- What every record of the cache guarantees ----

    /**
     In every run of the cache, every record holds exactly the payload the server had when it answered that record's last
     successful read, with that payload's tag, and nothing before any; unseen or unheard it is silent.
    */
    lemma EveryRecordIsPlainGet(url: string)
      requires Valid()
      ensures var r, g := cache.Get(url), MachineOf(url).ledger;
              && (g.lastGood.None? ==> r.state.data.None? && r.etag.None? && r.readVersion == 0)
              && (g.lastGood.Some? ==>
                    && g.lastGood.value in g.versions
                    && r.state.data == Some(g.lastGood.value.data) && r.etag == Some(TagOf(g.lastGood.value)))
              && (cache.hidden || r.listeners == map[] ==> r.timer.Off? && (r.flight.Some? ==> r.flight.value.aborted))
    {
      assert Follows(url);
      hide After, QueryRecord.Valid;
      CacheIsPlainGet(startHidden, Seen(log, url));
      if cache.hidden || cache.Get(url).listeners == map[] { Quiescence(startHidden, Seen(log, url)); }
    }

    /** In every run of the cache, a refresh asked for at some moment of a record that keeps a listener is followed by a read. */
    lemma NoRefreshIsLost(url: string, k: nat)
      requires Valid() && k < |log| && HeardSince(startHidden, Seen(log, url), k)
      requires (Seen(log, url)[k].Invalidate? || Seen(log, url)[k].Show?) && After(startHidden, Seen(log, url)[..k]).record.listeners != map[]
      requires !cache.hidden && cache.Get(url).flight.None?
      ensures MachineOf(url).ledger.lastStart >= 1 + k
    {
      assert Follows(url);
      hide After, QueryRecord.Valid, HeardSince;
      NoLostInvalidation(startHidden, Seen(log, url), k);
    }
  }
}
