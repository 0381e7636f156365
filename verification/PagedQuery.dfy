/** A cursor-paged list over one cached read: its additional pages, its epochs, and when a further page may be asked for. */
module PagedQuery {
  import opened QueryRecord
  import opened QueryGuarantees

  /** One additional page: the cursor it was asked with, its rows, its provenance, and the epoch its fetch began in. */
  datatype Page = Page(cursor: string, rows: seq<string>, meta: Meta, begun: nat)

  /** The state behind `more`: `next` is undefined until a page has been read. */
  datatype More = More(pages: seq<Page>, next: Option<Option<string>>, loading: bool, error: Option<string>,
                       errorMeta: Option<ErrorMeta>, observedAt: Option<nat>, firstReadVersion: Option<nat>)

  const NoPages := More([], None, false, None, None, None, None)

  /** A page read in flight, with what `loadMore` captured when it began. */
  datatype PageFetch = PageFetch(cursor: string, epoch: nat, aborted: bool, captured: More)

  /** One component's hold on the list. `since` is the epoch of its last refresh. */
  datatype Reader = Reader(epoch: nat, since: nat, controller: Option<PageFetch>, loose: seq<PageFetch>, more: More)

  const NewReader := Reader(0, 0, None, [], NoPages)

  /** The controller is aborted and forgotten; its fetch goes on unheard. */
  function Drop(r: Reader): Reader {
    match r.controller
    case None => r.(epoch := r.epoch + 1)
    case Some(f) => r.(epoch := r.epoch + 1, controller := None, loose := r.loose + [f.(aborted := true)])
  }

  function OnRefresh(r: Reader, readVersion: nat): Reader {
    var q := Drop(r);
    q.(more := NoPages.(firstReadVersion := Some(readVersion)), since := q.epoch)
  }

  /** The tab was hidden: the epoch ends, the pages stay. */
  function OnHidden(r: Reader): Reader {
    var q := Drop(r);
    q.(more := q.more.(loading := false))
  }

  /** The base read has to succeed once more before the list goes on. */
  predicate AwaitingFirstRead(r: Reader, base: Record) {
    r.more.firstReadVersion.Some? && base.readVersion <= r.more.firstReadVersion.value
  }

  function NextCursor(r: Reader, base: Record): Option<string> {
    if AwaitingFirstRead(r, base) then None
    else match r.more.next
      case Some(n) => n
      case None => if base.state.meta.Some? then base.state.meta.value.next else None
  }

  /** The guard of `loadMore`; an empty cursor is no cursor. */
  predicate MayLoad(r: Reader, base: Record, hidden: bool) {
    var next := NextCursor(r, base);
    !hidden && next.Some? && next.value != "" && r.controller.None?
  }

  function OnLoadMore(r: Reader, base: Record): Reader
    requires NextCursor(r, base).Some?
  {
    r.(controller := Some(PageFetch(NextCursor(r, base).value, r.epoch, false, r.more)),
       more := r.more.(loading := true, error := None))
  }

  /** Which fetch an outcome belongs to: the controller's, or one that was dropped. */
  datatype Which = Held | Loose(index: nat)

  predicate Has(r: Reader, w: Which) {
    match w
    case Held => r.controller.Some?
    case Loose(i) => i < |r.loose|
  }

  function The(r: Reader, w: Which): PageFetch
    requires Has(r, w)
  {
    match w
    case Held => r.controller.value
    case Loose(i) => r.loose[i]
  }

  predicate StillCurrent(r: Reader, f: PageFetch) {
    !f.aborted && f.epoch == r.epoch
  }

  /** `finally`: the controller is forgotten if it is still this fetch's. */
  function Finish(r: Reader, w: Which): Reader {
    match w
    case Held => r.(controller := None)
    case Loose(i) => if i < |r.loose| then r.(loose := r.loose[..i] + r.loose[i + 1..]) else r
  }

  function OnPage(r: Reader, w: Which, rows: seq<string>, meta: Meta, clock: nat): Reader
    requires Has(r, w)
  {
    var f := The(r, w);
    if !StillCurrent(r, f) then Finish(r, w)
    else
      Finish(r.(more := More(r.more.pages + [Page(f.cursor, rows, meta, f.epoch)], Some(meta.next), false, None, None,
                             Some(clock), r.more.firstReadVersion)), w)
  }

  function OnPageError(r: Reader, w: Which, message: string, meta: Option<ErrorMeta>): Reader
    requires Has(r, w)
  {
    var f := The(r, w);
    if !StillCurrent(r, f) then Finish(r, w)
    else Finish(r.(more := f.captured.(loading := false, error := Some(message), errorMeta := meta)), w)
  }

  // ---- The list and its base read ----

  datatype Event =
    | Base(event: QueryRecord.Event)
    | Refresh
    | LoadMore
    | PageArrives(which: Which, rows: seq<string>, meta: Meta)
    | PageFails(which: Which, message: string, errorMeta: Option<ErrorMeta>)

  datatype List = List(machine: Machine, reader: Reader)

  ghost predicate MayHappen(s: List, e: Event) {
    match e
    case Base(b) => Enabled(s.machine, b)
    case Refresh => true
    case LoadMore => MayLoad(s.reader, s.machine.record, s.machine.hidden)
    case PageArrives(w, _, _) => Has(s.reader, w)
    case PageFails(w, _, _) => Has(s.reader, w)
  }

  /** A refresh aborts the base read, then asks for another. */
  ghost function Happen(s: List, e: Event): List {
    match e
    case Base(b) => List(Next(s.machine, b), if b.Hide? then OnHidden(s.reader) else s.reader)
    case Refresh =>
      List(Next(Next(s.machine, AbortRead), Invalidate), OnRefresh(s.reader, s.machine.record.readVersion))
    case LoadMore =>
      if NextCursor(s.reader, s.machine.record).Some? then s.(reader := OnLoadMore(s.reader, s.machine.record)) else s
    case PageArrives(w, rows, meta) =>
      if Has(s.reader, w) then s.(reader := OnPage(s.reader, w, rows, meta, s.machine.now)) else s
    case PageFails(w, message, meta) =>
      if Has(s.reader, w) then s.(reader := OnPageError(s.reader, w, message, meta)) else s
  }

  ghost function AfterAll(s: List, events: seq<Event>): List {
    if events == [] then s else Happen(AfterAll(s, events[..|events| - 1]), events[|events| - 1])
  }

  ghost predicate Possible(s: List, events: seq<Event>) {
    events == [] || (Possible(s, events[..|events| - 1]) && MayHappen(AfterAll(s, events[..|events| - 1]), events[|events| - 1]))
  }

  /**
   The pages follow each other by their cursors, none is older than the last refresh, only a current fetch has the controller,
   and what it captured is still what the reader shows.
  */
  predicate ReaderOk(r: Reader) {
    && r.since <= r.epoch
    && (forall k :: 0 <= k < |r.more.pages| ==> r.since <= r.more.pages[k].begun <= r.epoch)
    && (forall k :: 0 < k < |r.more.pages| ==> Some(r.more.pages[k].cursor) == r.more.pages[k - 1].meta.next)
    && (r.more.pages == [] <==> r.more.next.None?)
    && (r.more.pages != [] ==> r.more.next == Some(r.more.pages[|r.more.pages| - 1].meta.next))
    && (r.controller.Some? ==>
          var f := r.controller.value;
          && !f.aborted && f.epoch == r.epoch
          && f.captured.pages == r.more.pages && f.captured.next == r.more.next
          && f.captured.firstReadVersion == r.more.firstReadVersion
          && (r.more.pages != [] ==> r.more.next == Some(Some(f.cursor))))
    && (forall k :: 0 <= k < |r.loose| ==> r.loose[k].aborted && r.loose[k].epoch < r.epoch)
  }

  lemma PageKeepsReader(r: Reader, w: Which, rows: seq<string>, meta: Meta, clock: nat)
    requires ReaderOk(r) && Has(r, w)
    ensures ReaderOk(OnPage(r, w, rows, meta, clock))
  {
  }

  lemma ErrorKeepsReader(r: Reader, w: Which, message: string, meta: Option<ErrorMeta>)
    requires ReaderOk(r) && Has(r, w)
    ensures ReaderOk(OnPageError(r, w, message, meta))
  {
  }

  lemma DropKeepsReader(r: Reader, readVersion: nat)
    requires ReaderOk(r)
    ensures ReaderOk(OnRefresh(r, readVersion)) && ReaderOk(OnHidden(r))
  {
  }

  lemma EventKeepsReader(s: List, e: Event)
    requires ReaderOk(s.reader) && MayHappen(s, e)
    ensures ReaderOk(Happen(s, e).reader)
  {
    match e
    case Base(b) => DropKeepsReader(s.reader, 0);
    case Refresh => DropKeepsReader(s.reader, s.machine.record.readVersion);
    case LoadMore =>
    case PageArrives(w, rows, meta) => PageKeepsReader(s.reader, w, rows, meta, s.machine.now);
    case PageFails(w, message, meta) => ErrorKeepsReader(s.reader, w, message, meta);
  }

  lemma {:induction false} ReaderOkHolds(s: List, events: seq<Event>)
    requires ReaderOk(s.reader) && Possible(s, events)
    ensures ReaderOk(AfterAll(s, events).reader)
    decreases |events|
  {
    if events != [] {
      ReaderOkHolds(s, events[..|events| - 1]);
      EventKeepsReader(AfterAll(s, events[..|events| - 1]), events[|events| - 1]);
    }
  }

  /** A page read begun in an earlier epoch changes nothing the reader shows, whether it succeeds or fails. */
  lemma EarlierEpochIsUnheard(s: List, e: Event)
    requires ReaderOk(s.reader) && MayHappen(s, e) && (e.PageArrives? || e.PageFails?)
    requires The(s.reader, e.which).epoch != s.reader.epoch
    ensures Happen(s, e).reader.more == s.reader.more && Happen(s, e).machine == s.machine
  {
  }

  /** A failing page read leaves the pages and the next cursor as they are. */
  lemma FailureKeepsPages(s: List, e: Event)
    requires ReaderOk(s.reader) && MayHappen(s, e) && e.PageFails?
    ensures Happen(s, e).reader.more.pages == s.reader.more.pages && Happen(s, e).reader.more.next == s.reader.more.next
  {
  }

  /** The pages of a list that began without any are consecutive, and all asked for since the last refresh. */
  lemma PagesAreConsecutive(m: Machine, events: seq<Event>, k: nat)
    requires Possible(List(m, NewReader), events) && k < |AfterAll(List(m, NewReader), events).reader.more.pages|
    ensures var r := AfterAll(List(m, NewReader), events).reader;
            && r.since <= r.more.pages[k].begun
            && (k > 0 ==> r.more.pages[k - 1].meta.next == Some(r.more.pages[k].cursor))
  {
    ReaderOkHolds(List(m, NewReader), events);
  }

  // ---- The gate ----

  /** After a refresh at moment `since`: until the next one, the read version it saw is the gate. */
  ghost predicate Gated(s: List, version: nat, since: nat) {
    Inv(s.machine) && Gate(s.machine, version, since) && s.reader.more.firstReadVersion == Some(version)
  }

  lemma RefreshGates(s: List)
    requires Inv(s.machine)
    ensures Gated(Happen(s, Refresh), s.machine.record.readVersion, s.machine.now)
  {
    var m := Next(s.machine, AbortRead);
    EventKeepsInv(s.machine, AbortRead);
    EventKeepsInv(m, Invalidate);
    assert Gate(m, s.machine.record.readVersion, s.machine.now);
    EventKeepsGate(m, Invalidate, s.machine.record.readVersion, s.machine.now);
  }

  lemma EventKeepsGated(s: List, e: Event, version: nat, since: nat)
    requires ReaderOk(s.reader) && Gated(s, version, since) && MayHappen(s, e) && !e.Refresh?
    ensures Gated(Happen(s, e), version, since)
  {
    if e.Base? {
      EventKeepsInv(s.machine, e.event);
      EventKeepsGate(s.machine, e.event, version, since);
    }
  }

  lemma {:induction false} GatedSince(s: List, events: seq<Event>)
    requires ReaderOk(s.reader) && Inv(s.machine) && events != [] && events[0] == Refresh && Possible(s, events)
    requires forall k :: 0 < k < |events| ==> !events[k].Refresh?
    ensures Gated(AfterAll(s, events), s.machine.record.readVersion, s.machine.now)
    decreases |events|
  {
    var front := events[..|events| - 1];
    if front == [] {
      RefreshGates(s);
    } else {
      GatedSince(s, front);
      ReaderOkHolds(s, front);
      EventKeepsGated(AfterAll(s, front), events[|events| - 1], s.machine.record.readVersion, s.machine.now);
    }
  }

  /**
   After `refresh()`, and until the next one, no page can be asked for before a base read has succeeded that started at the
   refresh or after it: the read it aborted does not count.
  */
  lemma NoPageBeforeAFreshBase(s: List, events: seq<Event>)
    requires ReaderOk(s.reader) && Inv(s.machine) && events != [] && events[0] == Refresh && Possible(s, events)
    requires forall k :: 0 < k < |events| ==> !events[k].Refresh?
    requires MayHappen(AfterAll(s, events), LoadMore)
    ensures AfterAll(s, events).machine.record.readVersion > s.machine.record.readVersion
    ensures AfterAll(s, events).machine.ledger.lastGoodStart >= s.machine.now
  {
    GatedSince(s, events);
  }
}
