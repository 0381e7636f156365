/** What every run of the outage lock keeps: exclusion, writers first, and who may wait for whom. */
module LockGuarantees {
  import opened LockProtocol

  // ---- Exclusion ----

  lemma ExclusionNow(s: State, a: World, b: World)
    requires Inv(s) && a in s.alive && b in s.alive && a != b && a < |s.worlds| && b < |s.worlds|
    requires HoldsExclusive(s.worlds[a])
    ensures s.dir.writer == Held(a, true)
    ensures !Owns(s.worlds[b]) && !HoldsShared(s.worlds[b])
    ensures s.worlds[b].sharing && !s.worlds[b].closed ==> GaveUpFile(s.worlds[b].at) && b !in s.dir.shared
  {
    assert PairOk(s, a, b) && SlotOk(s, a) && SlotOk(s, b) && FileOk(s, b);
  }

  /**
   While one live world holds the lock exclusively, no other live world is a writer, and none holds it shared: one that
   was sharing is inside its own `acquire`, with its shared file gone.
  */
  lemma Exclusion(s: State, events: seq<Event>, a: World, b: World)
    requires Start(s) && Valid(s, events) && a != b && a < |s.worlds| && b < |s.worlds|
    requires a in After(s, events).alive && b in After(s, events).alive
    requires HoldsExclusive(After(s, events).worlds[a])
    ensures After(s, events).dir.writer == Held(a, true)
    ensures !Owns(After(s, events).worlds[b]) && !HoldsShared(After(s, events).worlds[b])
    ensures After(s, events).worlds[b].sharing && !After(s, events).worlds[b].closed ==>
              GaveUpFile(After(s, events).worlds[b].at) && b !in After(s, events).dir.shared
  {
    InvHolds(s, events);
    ExclusionNow(After(s, events), a, b);
  }

  /** A world whose `close` has finished leaves neither a shared file nor a writer directory, wherever the close came. */
  lemma CloseLeavesNothing(s: State, events: seq<Event>, a: World)
    requires Start(s) && Valid(s, events)
    requires a < |s.worlds| && a in After(s, events).alive && After(s, events).worlds[a].at.Closed?
    ensures a !in After(s, events).dir.shared
    ensures After(s, events).dir.writer.Held? ==> After(s, events).dir.writer.creator != a
  {
    InvHolds(s, events);
    assert SlotOk(After(s, events), a) && FileOk(After(s, events), a);
  }

  // ---- Writers first ----

  /** The world has a shared file, or writes one without asking for a writer again. */
  predicate Entrant(s: State, j: World)
    requires j < |s.worlds|
  {
    var p := s.worlds[j].at;
    j in s.dir.shared || p.ShareWrite? || p == ShareBreak(First) || p.ReleaseRewrite? || p.CloseRewrite?
  }

  /** The writer directory of the live world `c` stands. */
  predicate Stands(s: State, c: World) {
    c in s.alive && s.dir.writer.Held? && s.dir.writer.creator == c
  }

  lemma StepAdmitsNobody(s: State, e: Event, c: World, j: World)
    requires Inv(s) && Enabled(s, e) && Stands(s, c) && j < |s.worlds| && j != c
    requires Entrant(Apply(s, e), j)
    ensures Entrant(s, j)
  {
    assert SlotOk(s, c) && SlotOk(s, j) && FileOk(s, j) && FileOk(s, e.world) && SlotOk(s, e.world);
  }

  ghost predicate StandsThroughout(s: State, events: seq<Event>, c: World) {
    Stands(After(s, events), c) && (events == [] || StandsThroughout(s, events[..|events| - 1], c))
  }

  lemma {:induction false} RunKeepsInv(s: State, events: seq<Event>)
    requires Inv(s) && Valid(s, events)
    ensures Inv(After(s, events))
    decreases |events|
  {
    if events != [] {
      RunKeepsInv(s, events[..|events| - 1]);
      var p := After(s, events[..|events| - 1]);
      match events[|events| - 1]
      case Calls(i, call) => CallKeepsInv(p, i, call);
      case Steps(i, c) => StepKeepsInv(p, i, c);
      case Dies(i) => DeathKeepsInv(p, i);
    }
  }

  /** Writers win: as long as a live writer's directory stands, whatever the others do, no new reader gets in. */
  lemma {:induction false} WritersWin(s: State, events: seq<Event>, c: World, j: World)
    requires Inv(s) && Valid(s, events) && StandsThroughout(s, events, c) && j < |s.worlds| && j != c
    requires Entrant(After(s, events), j)
    ensures Entrant(s, j)
    decreases |events|
  {
    if events != [] {
      var front := events[..|events| - 1];
      RunKeepsInv(s, front);
      StepAdmitsNobody(After(s, front), events[|events| - 1], c, j);
      WritersWin(s, front, c, j);
    }
  }

  // ---- Who waits for whom ----

  /** The pause of `i` goes on because of `j`. */
  predicate WaitsFor(s: State, i: World, j: World)
    requires i < |s.worlds|
  {
    && i in s.alive && i != j
    && match s.worlds[i].at
       case ShareWait => s.dir.writer.Held? && s.dir.writer.creator == j
       case AcquireSlotWait => s.dir.writer.Held? && s.dir.writer.creator == j
       case AcquireDrainWait => j in s.dir.shared
       case _ => false
  }

  function Rank(p: Point): nat {
    if p.ShareWait? || p.AcquireSlotWait? then 2 else if p.AcquireDrainWait? then 1 else 0
  }

  lemma WaitsGoDown(s: State, i: World, j: World)
    requires Inv(s) && i < |s.worlds| && j in s.alive && WaitsFor(s, i, j)
    ensures Rank(s.worlds[j].at) < Rank(s.worlds[i].at)
  {
    assert SlotOk(s, i) && SlotOk(s, j) && FileOk(s, j);
  }

  ghost predicate WaitChain(s: State, chain: seq<World>) {
    && (forall k :: 0 <= k < |chain| ==> chain[k] in s.alive && chain[k] < |s.worlds|)
    && (forall k :: 0 <= k < |chain| - 1 ==> WaitsFor(s, chain[k], chain[k + 1]))
  }

  lemma {:induction false} ChainRanks(s: State, chain: seq<World>, m: nat, n: nat)
    requires Inv(s) && WaitChain(s, chain) && m < n < |chain|
    ensures Rank(s.worlds[chain[n]].at) + (n - m) <= Rank(s.worlds[chain[m]].at)
    decreases n - m
  {
    WaitsGoDown(s, chain[m], chain[m + 1]);
    if m + 1 < n { ChainRanks(s, chain, m + 1, n); }
  }

  /** In every run the waits-for relation of the live worlds is acyclic: a chain has at most three worlds, all different. */
  lemma NoCircularWait(s: State, events: seq<Event>, chain: seq<World>)
    requires Start(s) && Valid(s, events) && WaitChain(After(s, events), chain)
    ensures |chain| <= 3
    ensures forall m, n :: 0 <= m < n < |chain| ==> chain[m] != chain[n]
  {
    InvHolds(s, events);
    forall m: nat, n: nat | m < n < |chain| ensures chain[m] != chain[n] {
      ChainRanks(After(s, events), chain, m, n);
    }
    if |chain| > 3 { ChainRanks(After(s, events), chain, 0, 3); }
  }

  // ---- Progress ----

  /** The call pending at a pause. */
  function Pending(p: Point): Call
    requires Suspended(p)
  {
    if p.ShareWait? then Share else Acquire
  }

  predicate Returned(l: Local, call: Call) {
    l.at.Idle? && (call.Share? ==> l.sharing) && (call.Acquire? ==> l.writing)
  }

  /** The steps of `i` alone, with the surroundings deciding as in `cs`, return from `call` with the hold it asked for. */
  ghost predicate Returns(s: State, i: World, call: Call, cs: seq<Choice>)
    requires i < |s.worlds|
    decreases |cs|
  {
    if cs == [] then Returned(s.worlds[i], call)
    else Enabled(s, Steps(i, cs[0])) && Returns(Apply(s, Steps(i, cs[0])), i, call, cs[1..])
  }

  /** Every live world pauses in a call, is closed, or is idle and holds nothing. */
  ghost predicate Quiet(s: State) {
    forall i: World :: i in s.alive && i < |s.worlds| ==>
      Suspended(s.worlds[i].at) || s.worlds[i].at.Closed? || s.worlds[i] == Fresh
  }

  lemma OwnStep(s: State, i: World, c: Choice, call: Call, cs: seq<Choice>)
    requires i < |s.worlds| && Enabled(s, Steps(i, c)) && Returns(Apply(s, Steps(i, c)), i, call, cs)
    ensures Returns(s, i, call, [c] + cs)
  {
    assert ([c] + cs)[1..] == cs;
  }

  const Aged := Choice(true, [])

  /** The scan of a listing that names only dead worlds (and the writer itself) ends the wait. */
  lemma {:induction false} ScanOfTheDead(s: State, i: World, names: seq<World>) returns (cs: seq<Choice>)
    requires i < |s.worlds| && i in s.alive && s.worlds[i].at == AcquireScan(names, false) && s.worlds[i].writing
    requires forall k :: 0 <= k < |names| ==> names[k] == i || (names[k] !in s.alive && names[k] in s.dir.shared)
    requires forall k, m :: 0 <= k < m < |names| ==> names[k] != names[m]
    ensures Returns(s, i, Acquire, cs)
    decreases |names|
  {
    var t := Apply(s, Steps(i, Aged));
    cs := [];
    if names == [] {
      if s.worlds[i].sharing {
        OwnStep(t, i, Aged, Acquire, []);
        cs := [Aged] + [];
      }
    } else if names[0] == i {
      cs := ScanOfTheDead(t, i, names[1..]);
    } else {
      var u := Apply(t, Steps(i, Aged));
      assert u.worlds[i].at == AcquireScan(names[1..], false);
      cs := ScanOfTheDead(u, i, names[1..]);
      OwnStep(t, i, Aged, Acquire, cs);
      cs := [Aged] + cs;
    }
    OwnStep(s, i, Aged, Acquire, cs);
    cs := [Aged] + cs;
  }

  lemma {:induction false} Listing(names: set<World>) returns (listing: seq<World>)
    ensures forall j: World :: j in names <==> j in listing
    ensures forall k, m :: 0 <= k < m < |listing| ==> listing[k] != listing[m]
  {
    if names == {} {
      listing := [];
    } else {
      var j :| j in names;
      var rest := Listing(names - {j});
      listing := [j] + rest;
    }
  }

  ghost predicate OnlyDeadFiles(s: State) {
    forall j :: j in s.dir.shared ==> j !in s.alive
  }

  lemma QuietFiles(s: State)
    requires Inv(s) && Quiet(s)
    ensures OnlyDeadFiles(s)
  {
    forall j | j in s.dir.shared ensures j !in s.alive {
      assert FileOk(s, j) && SlotOk(s, j);
    }
  }

  lemma DrainReturns(s: State, i: World) returns (cs: seq<Choice>)
    requires i < |s.worlds| && i in s.alive && s.worlds[i].at.AcquireList? && s.worlds[i].writing
    requires OnlyDeadFiles(s)
    ensures Returns(s, i, Acquire, cs)
  {
    var listing := Listing(s.dir.shared);
    var c := Choice(true, listing);
    cs := ScanOfTheDead(Apply(s, Steps(i, c)), i, listing);
    OwnStep(s, i, c, Acquire, cs);
    cs := [c] + cs;
  }

  /** A writer that waits for shared holders to end returns as soon as only dead ones are left. */
  lemma DrainWaiterReturns(s: State, i: World) returns (cs: seq<Choice>)
    requires Inv(s) && OnlyDeadFiles(s) && i in s.alive && s.worlds[i].at.AcquireDrainWait?
    ensures Returns(s, i, Acquire, cs)
  {
    assert SlotOk(s, i);
    cs := DrainReturns(Apply(s, Steps(i, Aged)), i);
    OwnStep(s, i, Aged, Acquire, cs);
    cs := [Aged] + cs;
  }

  lemma FreeSlotReturns(s: State, i: World) returns (cs: seq<Choice>)
    requires i < |s.worlds| && i in s.alive && s.worlds[i].at.AcquireMkdir? && s.dir.writer.Absent?
    requires OnlyDeadFiles(s)
    ensures Returns(s, i, Acquire, cs)
  {
    var t := Apply(s, Steps(i, Aged));
    cs := DrainReturns(Apply(t, Steps(i, Aged)), i);
    OwnStep(t, i, Aged, Acquire, cs);
    cs := [Aged] + cs;
    OwnStep(s, i, Aged, Acquire, cs);
    cs := [Aged] + cs;
  }

  /** A world queuing for the writer slot gets it once no live world has it: a dead one's directory is broken first. */
  lemma SlotWaiterReturns(s: State, i: World) returns (cs: seq<Choice>)
    requires i < |s.worlds| && i in s.alive && s.worlds[i].at.AcquireSlotWait? && OnlyDeadFiles(s)
    requires s.dir.writer.Held? ==> s.dir.writer.creator !in s.alive
    ensures Returns(s, i, Acquire, cs)
    decreases s.dir.writer.Held?
  {
    var t := Apply(s, Steps(i, Aged));
    if s.dir.writer.Absent? {
      cs := FreeSlotReturns(t, i);
    } else {
      var u := Apply(t, Steps(i, Aged));
      cs := SlotWaiterReturns(Apply(u, Steps(i, Aged)), i);
      OwnStep(u, i, Aged, Acquire, cs);
      cs := [Aged] + cs;
      OwnStep(t, i, Aged, Acquire, cs);
      cs := [Aged] + cs;
    }
    OwnStep(s, i, Aged, Acquire, cs);
    cs := [Aged] + cs;
  }

  lemma FreeShareReturns(s: State, i: World) returns (cs: seq<Choice>)
    requires i < |s.worlds| && i in s.alive && s.worlds[i].at.ShareWrite? && s.dir.writer.Absent?
    ensures Returns(s, i, Share, cs)
  {
    var t := Apply(s, Steps(i, Aged));
    cs := [];
    if !Returned(t.worlds[i], Share) {
      OwnStep(t, i, Aged, Share, []);
      cs := [Aged] + [];
    }
    OwnStep(s, i, Aged, Share, cs);
    cs := [Aged] + cs;
  }

  /** A world waiting to share enters once the slot is free, or was named by a world that died. */
  lemma ShareWaiterReturns(s: State, i: World) returns (cs: seq<Choice>)
    requires i < |s.worlds| && i in s.alive && s.worlds[i].at.ShareWait?
    requires s.dir.writer.Held? ==> s.dir.writer.named && s.dir.writer.creator !in s.alive
    ensures Returns(s, i, Share, cs)
  {
    var t := Apply(s, Steps(i, Aged));
    var u := Apply(t, Steps(i, Aged));
    if s.dir.writer.Absent? {
      cs := FreeShareReturns(u, i);
    } else {
      var v := Apply(u, Steps(i, Aged));
      cs := FreeShareReturns(Apply(v, Steps(i, Aged)), i);
      OwnStep(v, i, Aged, Share, cs);
      cs := [Aged] + cs;
      OwnStep(u, i, Aged, Share, cs);
      cs := [Aged] + cs;
    }
    OwnStep(t, i, Aged, Share, cs);
    cs := [Aged] + cs;
    OwnStep(s, i, Aged, Share, cs);
    cs := [Aged] + cs;
  }

  /** A writer directory without an owner file, left by a world that died between `mkdir` and the write (or inside its own removal). */
  predicate Orphan(s: State) {
    s.dir.writer.Held? && !s.dir.writer.named && s.dir.writer.creator !in s.alive
  }

  /**
   Progress: when every live world only waits, one of the waiting calls returns by its own steps. The one exception is an
   orphaned writer directory with nobody queuing for the slot: `share` never breaks a directory without an owner file.
  */
  lemma SomeWaiterReturns(s: State, i: World) returns (w: World, cs: seq<Choice>)
    requires Inv(s) && Quiet(s) && i in s.alive && Suspended(s.worlds[i].at)
    requires Orphan(s) ==> s.worlds[i].at.AcquireSlotWait?
    ensures w in s.alive && w < |s.worlds| && Suspended(s.worlds[w].at) && Returns(s, w, Pending(s.worlds[w].at), cs)
  {
    w := i;
    QuietFiles(s);
    if s.worlds[i].at.AcquireDrainWait? {
      cs := DrainWaiterReturns(s, i);
    } else if s.dir.writer.Held? && s.dir.writer.creator in s.alive {
      w := s.dir.writer.creator;
      assert SlotOk(s, w);
      cs := DrainWaiterReturns(s, w);
    } else if s.worlds[i].at.AcquireSlotWait? {
      cs := SlotWaiterReturns(s, i);
    } else {
      cs := ShareWaiterReturns(s, i);
    }
  }

  /** Every live world is outside `acquire`, has no part of the slot, and would still ask for a writer before it shares. */
  ghost predicate ReadersOnly(s: State) {
    forall i: World :: i in s.alive && i < |s.worlds| ==>
      && !s.worlds[i].writing
      && var p := s.worlds[i].at;
         p.Idle? || p == ShareStat(First) || p == ShareRead(First) || p.ShareWait? || p.UnshareRemove? || p.CloseRemove? || p.Closed?
  }

  lemma OrphanKeepsReadersOut(s: State, e: Event)
    requires Orphan(s) && ReadersOnly(s) && Enabled(s, e) && !(e.Calls? && e.call.Acquire?)
    ensures Orphan(Apply(s, e)) && ReadersOnly(Apply(s, e))
    ensures forall j :: 0 <= j < |s.worlds| && Apply(s, e).worlds[j].sharing ==> s.worlds[j].sharing
  {
  }

  /** The wedge: over an orphaned writer directory, no run without a new `acquire` ever lets another world share the lock. */
  lemma {:induction false} OrphanWedgesReaders(s: State, events: seq<Event>)
    requires Orphan(s) && ReadersOnly(s) && Valid(s, events)
    requires forall k :: 0 <= k < |events| ==> !(events[k].Calls? && events[k].call.Acquire?)
    ensures Orphan(After(s, events)) && ReadersOnly(After(s, events))
    ensures forall j :: 0 <= j < |s.worlds| && After(s, events).worlds[j].sharing ==> s.worlds[j].sharing
    decreases |events|
  {
    if events != [] {
      OrphanWedgesReaders(s, events[..|events| - 1]);
      OrphanKeepsReadersOut(After(s, events[..|events| - 1]), events[|events| - 1]);
    }
  }

  lemma {:induction false} OrphanBlocksShare(s: State, w: World, cs: seq<Choice>)
    requires w < |s.worlds| && Orphan(s) && ReadersOnly(s) && !s.worlds[w].sharing
    ensures !Returns(s, w, Share, cs)
    decreases |cs|
  {
    if cs != [] && Enabled(s, Steps(w, cs[0])) {
      OrphanKeepsReadersOut(s, Steps(w, cs[0]));
      OrphanBlocksShare(Apply(s, Steps(w, cs[0])), w, cs[1..]);
    }
  }

  ghost predicate Waits(s: State, i: World) {
    i in s.alive && i < |s.worlds| && Suspended(s.worlds[i].at)
  }

  ghost predicate WaitEnds(s: State, w: World, cs: seq<Choice>) {
    Waits(s, w) && Returns(s, w, Pending(s.worlds[w].at), cs)
  }

  /** Where every live world only waits, somebody's wait can end exactly when the slot is not orphaned or somebody queues for it. */
  lemma ProgressExactly(s: State, i: World)
    requires Inv(s) && Quiet(s) && Waits(s, i)
    ensures (exists w: World, cs :: WaitEnds(s, w, cs)) <==>
            (!Orphan(s) || exists q: World :: Waits(s, q) && s.worlds[q].at.AcquireSlotWait?)
  {
    if !Orphan(s) {
      var w, cs := SomeWaiterReturns(s, i);
      assert WaitEnds(s, w, cs);
    } else if q: World :| Waits(s, q) && s.worlds[q].at.AcquireSlotWait? {
      var w, cs := SomeWaiterReturns(s, q);
      assert WaitEnds(s, w, cs);
    } else {
      forall j: World | j in s.alive && j < |s.worlds| ensures !s.worlds[j].writing && !s.worlds[j].at.AcquireDrainWait? {
        assert SlotOk(s, j);
        assert !Waits(s, j) || !s.worlds[j].at.AcquireSlotWait?;
      }
      assert ReadersOnly(s);
      forall w: World, cs: seq<Choice> | Waits(s, w) ensures !WaitEnds(s, w, cs) {
        assert SlotOk(s, w);
        OrphanBlocksShare(s, w, cs);
      }
    }
  }

  /** `events` is a possible run from `s` to `t`. */
  ghost predicate Leads(s: State, events: seq<Event>, t: State) {
    Valid(s, events) && After(s, events) == t
  }

  lemma Follow(s: State, events: seq<Event>, t: State, e: Event) returns (more: seq<Event>)
    requires Leads(s, events, t) && Enabled(t, e)
    ensures Leads(s, more, Apply(t, e))
  {
    more := events + [e];
    assert more[..|events|] == events;
  }

  const TwoFresh := State([Fresh, Fresh], Directory(Absent, {}), {0, 1})
  const DiedAtMkdir := State([Local(AcquireOwner, false, false, false), Fresh], Directory(Held(0, false), {}), {1})
  const ReaderWaits :=
    State([Local(AcquireOwner, false, false, false), Local(ShareWait, false, false, false)], Directory(Held(0, false), {}), {1})

  lemma DiesAtMkdir() returns (events: seq<Event>)
    ensures Leads(TwoFresh, events, DiedAtMkdir)
  {
    var s1 := TwoFresh.(worlds := [Local(AcquireMkdir, false, false, false), Fresh]);
    var s2 := DiedAtMkdir.(alive := {0, 1});
    assert Apply(TwoFresh, Calls(0, Acquire)) == s1 && Apply(s1, Steps(0, Aged)) == s2 && Apply(s2, Dies(0)) == DiedAtMkdir;
    events := Follow(TwoFresh, [], TwoFresh, Calls(0, Acquire));
    events := Follow(TwoFresh, events, s1, Steps(0, Aged));
    events := Follow(TwoFresh, events, s2, Dies(0));
  }

  lemma ReaderWaitsForEver() returns (events: seq<Event>)
    ensures Leads(DiedAtMkdir, events, ReaderWaits)
  {
    var s1 := DiedAtMkdir.(worlds := [DiedAtMkdir.worlds[0], Local(ShareStat(First), false, false, false)]);
    var s2 := DiedAtMkdir.(worlds := [DiedAtMkdir.worlds[0], Local(ShareRead(First), false, false, false)]);
    assert Apply(DiedAtMkdir, Calls(1, Share)) == s1 && Apply(s1, Steps(1, Aged)) == s2 && Apply(s2, Steps(1, Aged)) == ReaderWaits;
    events := Follow(DiedAtMkdir, [], DiedAtMkdir, Calls(1, Share));
    events := Follow(DiedAtMkdir, events, s1, Steps(1, Aged));
    events := Follow(DiedAtMkdir, events, s2, Steps(1, Aged));
  }

  lemma {:induction false} Join(s: State, first: seq<Event>, t: State, second: seq<Event>, u: State)
    requires Leads(s, first, t) && Leads(t, second, u)
    ensures Leads(s, first + second, u)
    decreases |second|
  {
    if second == [] {
      assert first + second == first;
    } else {
      var front := second[..|second| - 1];
      Join(s, first, t, front, After(t, front));
      assert (first + second)[..|first + second| - 1] == first + front;
    }
  }

  /** Such a wedge is real: world 0 dies right after its `mkdir`, world 1 then waits to share for ever. */
  lemma DeadWriterCanWedge() returns (events: seq<Event>)
    ensures Start(TwoFresh) && Leads(TwoFresh, events, ReaderWaits)
    ensures Orphan(ReaderWaits) && ReadersOnly(ReaderWaits) && Waits(ReaderWaits, 1)
  {
    var first := DiesAtMkdir();
    var second := ReaderWaitsForEver();
    Join(TwoFresh, first, DiedAtMkdir, second, ReaderWaits);
    events := first + second;
  }
}
