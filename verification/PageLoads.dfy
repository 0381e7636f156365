/** When a list asks for a further page, for which one, and what comes of it. */
module PageLoads {
  import opened QueryRecord
  import opened QueryGuarantees
  import opened PagedQuery

  type ListEvent = PagedQuery.Event

  /** The cursor a list goes on from: its last page's, or before any page its base read's. */
  function GoesOnFrom(s: List): Option<string> {
    var pages, base := s.reader.more.pages, s.machine.record.state.meta;
    if pages != [] then pages[|pages| - 1].meta.next else if base.Some? then base.value.next else None
  }

  /** A refresh has not been answered yet. */
  predicate Awaits(s: List) {
    s.reader.more.firstReadVersion.Some? && s.machine.record.readVersion <= s.reader.more.firstReadVersion.value
  }

  /**
   A list can ask for a page if and only if the tab is visible, no page of it is in flight, no refresh is unanswered, and there is a
   cursor to go on from that is not empty; and it asks with exactly that cursor, keeping what it shows.
  */
  lemma AsksForTheNextPage(s: List)
    requires ReaderOk(s.reader)
    ensures MayHappen(s, LoadMore) <==>
              && !s.machine.hidden && s.reader.controller.None? && !Awaits(s)
              && GoesOnFrom(s).Some? && GoesOnFrom(s).value != ""
    ensures MayHappen(s, LoadMore) ==>
              var r := Happen(s, LoadMore).reader;
              && Happen(s, LoadMore).machine == s.machine
              && r.controller.Some? && r.controller.value.cursor == GoesOnFrom(s).value
              && !r.controller.value.aborted && r.controller.value.epoch == s.reader.epoch
              && r.epoch == s.reader.epoch && r.loose == s.reader.loose
              && r.more == s.reader.more.(loading := true, error := None)
  {
  }

  /** What was in flight for the list goes on aborted, and the list waits for nothing. */
  predicate LetGo(r: Reader, q: Reader) {
    && q.controller.None? && q.epoch == r.epoch + 1
    && q.loose == r.loose + if r.controller.None? then [] else [r.controller.value.(aborted := true)]
  }

  /** A page the list waits for is shown after the others, with exactly its rows and its provenance, and the list may ask again. */
  lemma PageIsShown(s: List, rows: seq<string>, meta: Meta)
    requires ReaderOk(s.reader) && MayHappen(s, PageArrives(Held, rows, meta))
    ensures var f, more, r := s.reader.controller.value, s.reader.more, Happen(s, PageArrives(Held, rows, meta)).reader;
            && r.more.pages == more.pages + [Page(f.cursor, rows, meta, s.reader.epoch)]
            && r.more.next == Some(meta.next) && !r.more.loading && r.more.error.None? && r.more.errorMeta.None?
            && r.more.observedAt == Some(s.machine.now) && r.more.firstReadVersion == more.firstReadVersion
            && r.controller.None? && r.epoch == s.reader.epoch
  {
  }

  /** A failing page is reported, leaves the pages, and the list may ask for it again. */
  lemma PageFailureIsShown(s: List, message: string, meta: Option<ErrorMeta>)
    requires ReaderOk(s.reader) && MayHappen(s, PageFails(Held, message, meta))
    ensures var more, r := s.reader.more, Happen(s, PageFails(Held, message, meta)).reader;
            && r.more.pages == more.pages && r.more.next == more.next && r.more.firstReadVersion == more.firstReadVersion
            && r.more.error == Some(message) && r.more.errorMeta == meta && !r.more.loading
            && r.controller.None? && r.epoch == s.reader.epoch
  {
  }

  /** A fetch the list has dropped is not heard, whatever becomes of it. */
  lemma DroppedIsUnheard(s: List, e: ListEvent)
    requires ReaderOk(s.reader) && MayHappen(s, e) && (e.PageArrives? || e.PageFails?) && e.which.Loose?
    ensures var r := Happen(s, e).reader;
            && r.more == s.reader.more && r.epoch == s.reader.epoch && r.controller == s.reader.controller
            && |r.loose| == |s.reader.loose| - 1
  {
  }

  /**
   `refresh` forgets the pages and every fetch of them, and aborts the base read; of a visible list somebody looks at a base read has
   then started, or starts as soon as the aborted one has ended.
  */
  lemma RefreshStartsOver(s: List)
    requires Inv(s.machine) && ReaderOk(s.reader)
    ensures var t := Happen(s, Refresh);
            && t.reader.more == More([], None, false, None, None, None, Some(s.machine.record.readVersion))
            && LetGo(s.reader, t.reader) && t.reader.since == t.reader.epoch
            && Awaits(t)
            && (!s.machine.hidden && s.machine.record.listeners != map[] ==>
                  && t.machine.record.flight.Some?
                  && (if s.machine.record.flight.Some? then t.machine.record.flight.value.aborted && t.machine.record.pendingRefresh
                      else !t.machine.record.flight.value.aborted && t.machine.record.flight.value.started > s.machine.now))
  {
  }

  /** Hiding the tab drops the fetch and keeps the pages; nothing else that happens to the base read changes the list. */
  lemma BaseEventsKeepPages(s: List, b: QueryRecord.Event)
    requires ReaderOk(s.reader) && MayHappen(s, Base(b))
    ensures var r := Happen(s, Base(b)).reader;
            && Happen(s, Base(b)).machine == Next(s.machine, b)
            && (b.Hide? ==> r.more == s.reader.more.(loading := false) && LetGo(s.reader, r) && r.since == s.reader.since)
            && (!b.Hide? ==> r == s.reader)
  {
  }

  // ---- The first page ----

  /** At some moment the list asked for a page, and its base read named this cursor. */
  ghost predicate AskedBase(s: List, events: seq<ListEvent>, cursor: string) {
    exists j ::
      && 0 <= j < |events| && events[j].LoadMore?
      && AfterAll(s, events[..j]).machine.record.state.meta.Some?
      && AfterAll(s, events[..j]).machine.record.state.meta.value.next == Some(cursor)
  }

  lemma AskedBefore(s: List, events: seq<ListEvent>, cursor: string)
    requires events != [] && AskedBase(s, events[..|events| - 1], cursor)
    ensures AskedBase(s, events, cursor)
  {
    var front := events[..|events| - 1];
    var j :|
      && 0 <= j < |front| && front[j].LoadMore?
      && AfterAll(s, front[..j]).machine.record.state.meta.Some?
      && AfterAll(s, front[..j]).machine.record.state.meta.value.next == Some(cursor);
    assert front[..j] == events[..j] && events[j] == front[j];
  }

  lemma AskedNow(s: List, events: seq<ListEvent>, cursor: string)
    requires events != [] && events[|events| - 1].LoadMore?
    requires var base := AfterAll(s, events[..|events| - 1]).machine.record.state.meta; base.Some? && base.value.next == Some(cursor)
    ensures AskedBase(s, events, cursor)
  {
    assert events[|events| - 1].LoadMore?;
  }

  /** What is shown first, or waited for first, was asked for with the base read's cursor. */
  ghost predicate FirstOk(s: List, events: seq<ListEvent>, r: Reader) {
    && (r.more.pages != [] ==> AskedBase(s, events, r.more.pages[0].cursor))
    && (r.controller.Some? && r.more.pages == [] ==> AskedBase(s, events, r.controller.value.cursor))
  }

  /** What an event makes of the first page and of the fetch for it. */
  lemma FirstStep(s: List, e: ListEvent)
    requires ReaderOk(s.reader) && MayHappen(s, e)
    ensures var r, q := s.reader, Happen(s, e).reader;
            && (q.more.pages != [] ==>
                  || (r.more.pages != [] && q.more.pages[0] == r.more.pages[0])
                  || (r.more.pages == [] && r.controller.Some? && q.more.pages[0].cursor == r.controller.value.cursor))
            && (q.controller.Some? && q.more.pages == [] ==>
                  r.more.pages == [] && (r.controller == q.controller || e.LoadMore?))
  {
  }

  lemma {:induction false} FirstHolds(s: List, events: seq<ListEvent>)
    requires s.reader == NewReader && Possible(s, events)
    ensures FirstOk(s, events, AfterAll(s, events).reader)
    decreases |events|
  {
    if events != [] {
      var front, e := events[..|events| - 1], events[|events| - 1];
      var before := AfterAll(s, front);
      FirstHolds(s, front);
      ReaderOkHolds(s, front);
      FirstStep(before, e);
      hide ReaderOk, AskedBase;
      var r, q := before.reader, AfterAll(s, events).reader;
      if e.LoadMore? {
        AsksForTheNextPage(before);
        if r.more.pages == [] {
          AskedNow(s, events, q.controller.value.cursor);
        } else {
          AskedBefore(s, events, r.more.pages[0].cursor);
        }
      } else {
        if r.more.pages != [] { AskedBefore(s, events, r.more.pages[0].cursor); }
        if r.more.pages == [] && r.controller.Some? { AskedBefore(s, events, r.controller.value.cursor); }
      }
    }
  }

  /**
   The pages of a list that began without any, all of them: the first was asked for with a cursor the base read had named, each
   further one with the cursor of the page before it, and all since the last refresh.
  */
  lemma PagesFollowTheBase(m: Machine, events: seq<ListEvent>, k: nat)
    requires Possible(List(m, NewReader), events) && k < |AfterAll(List(m, NewReader), events).reader.more.pages|
    ensures var r := AfterAll(List(m, NewReader), events).reader;
            && r.since <= r.more.pages[k].begun
            && (if k == 0 then AskedBase(List(m, NewReader), events, r.more.pages[0].cursor)
                else r.more.pages[k - 1].meta.next == Some(r.more.pages[k].cursor))
  {
    PagesAreConsecutive(m, events, k);
    FirstHolds(List(m, NewReader), events);
  }
}
