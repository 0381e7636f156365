/** What each call of the lock brings about, over every run in which others go on meanwhile. */
module LockCalls {
  import opened LockProtocol
  import opened LockGuarantees

  /** How many file operations (and pauses) of its own a world has gone through. */
  function Performed(events: seq<Event>, a: World): nat {
    if events == [] then 0
    else
      var last := events[|events| - 1];
      Performed(events[..|events| - 1], a) + if last.Steps? && last.world == a then 1 else 0
  }

  /** The world lives and only goes on with its pending call; the others do as they like. */
  predicate GoesOn(events: seq<Event>, a: World) {
    forall k :: 0 <= k < |events| && events[k].world == a ==> events[k].Steps?
  }

  /** Another world's event leaves this one where it is. */
  lemma OthersLeaveIt(s: State, e: Event, a: World)
    requires a < |s.worlds| && e.world != a
    ensures Apply(s, e).worlds[a] == s.worlds[a] && (a in s.alive ==> a in Apply(s, e).alive)
  {
  }

  lemma {:induction false} StaysAlive(t: State, events: seq<Event>, a: World)
    requires a < |t.worlds| && a in t.alive && GoesOn(events, a)
    ensures a in After(t, events).alive
    decreases |events|
  {
    if events != [] {
      StaysAlive(t, events[..|events| - 1], a);
      if events[|events| - 1].world != a { OthersLeaveIt(After(t, events[..|events| - 1]), events[|events| - 1], a); }
    }
  }

  // ---- release ----

  /** The lock object after `k` operations of a release. */
  predicate Releasing(l: Local, was: Local, k: nat) {
    && !l.writing && l.sharing == was.sharing && l.closed == was.closed
    && l.at == (if k == 0 then ReleaseUnlink else if k == 1 then ReleaseRmdir
                else if k == 2 && was.sharing then ReleaseRewrite else Idle)
  }

  lemma {:induction false} ReleaseStages(s: State, events: seq<Event>, a: World)
    requires a < |s.worlds| && s.worlds[a].at.Idle? && s.worlds[a].writing && GoesOn(events, a)
    ensures Releasing(After(Apply(s, Calls(a, Release)), events).worlds[a], s.worlds[a], Performed(events, a))
    decreases |events|
  {
    if events != [] {
      var front, last := events[..|events| - 1], events[|events| - 1];
      ReleaseStages(s, front, a);
      if last.world != a { OthersLeaveIt(After(Apply(s, Calls(a, Release)), front), last, a); }
    }
  }

  /**
   `release` lets go: from the moment it is called the world holds nothing exclusively, whatever the others do; after at most three
   operations of its own it is idle, its writer directory is gone, and it has a shared file exactly if it shares.
  */
  lemma ReleaseLetsGo(start: State, before: seq<Event>, events: seq<Event>, a: World)
    requires Start(start) && Valid(start, before) && a < |start.worlds| && GoesOn(events, a)
    requires var s := After(start, before); a in s.alive && s.worlds[a].at.Idle? && s.worlds[a].writing
    requires Valid(Apply(After(start, before), Calls(a, Release)), events)
    ensures var s := After(start, before);
            var u := After(Apply(s, Calls(a, Release)), events);
            && !HoldsExclusive(u.worlds[a]) && u.worlds[a].sharing == s.worlds[a].sharing
            && (Performed(events, a) >= 3 ==>
                  && u.worlds[a].at.Idle?
                  && !(u.dir.writer.Held? && u.dir.writer.creator == a)
                  && (a in u.dir.shared <==> u.worlds[a].sharing))
  {
    var s := After(start, before);
    InvHolds(start, before);
    CallKeepsInv(s, a, Release);
    var t := Apply(s, Calls(a, Release));
    ReleaseStages(s, events, a);
    RunKeepsInv(t, events);
    StaysAlive(t, events, a);
    var u := After(t, events);
    assert SlotOk(s, a) && SlotOk(u, a) && FileOk(u, a);
  }

  // ---- unshare ----

  lemma {:induction false} UnshareStages(s: State, events: seq<Event>, a: World)
    requires a < |s.worlds| && s.worlds[a].at.Idle? && s.worlds[a].sharing && GoesOn(events, a)
    ensures After(Apply(s, Calls(a, Unshare)), events).worlds[a]
         == s.worlds[a].(sharing := false, at := if Performed(events, a) == 0 then UnshareRemove else Idle)
    decreases |events|
  {
    if events != [] {
      var front, last := events[..|events| - 1], events[|events| - 1];
      UnshareStages(s, front, a);
      if last.world != a { OthersLeaveIt(After(Apply(s, Calls(a, Unshare)), front), last, a); }
    }
  }

  /** `unshare` gives the shared hold up at once, and its file with its first operation; an exclusive hold stays. */
  lemma UnshareLetsGo(start: State, before: seq<Event>, events: seq<Event>, a: World)
    requires Start(start) && Valid(start, before) && a < |start.worlds| && GoesOn(events, a)
    requires var s := After(start, before); a in s.alive && s.worlds[a].at.Idle? && s.worlds[a].sharing
    requires Valid(Apply(After(start, before), Calls(a, Unshare)), events)
    ensures var s := After(start, before);
            var u := After(Apply(s, Calls(a, Unshare)), events);
            && !HoldsShared(u.worlds[a]) && u.worlds[a].writing == s.worlds[a].writing
            && (Performed(events, a) >= 1 ==> u.worlds[a].at.Idle? && a !in u.dir.shared)
  {
    var s := After(start, before);
    InvHolds(start, before);
    CallKeepsInv(s, a, Unshare);
    var t := Apply(s, Calls(a, Unshare));
    UnshareStages(s, events, a);
    RunKeepsInv(t, events);
    StaysAlive(t, events, a);
    var u := After(t, events);
    assert SlotOk(u, a) && FileOk(u, a);
  }

  // ---- close ----

  /** A close can come in each of the three pauses of a pending call; any other call only when none is pending. */
  lemma CloseComesInPauses(s: State, a: World, call: Call)
    requires a < |s.worlds| && a in s.alive
    ensures Enabled(s, Calls(a, call)) <==>
              var at := s.worlds[a].at;
              at.Idle? || at.Closed? || (call.Close? && (at.ShareWait? || at.AcquireSlotWait? || at.AcquireDrainWait?))
  {
  }

  /** The lock object after `k` operations of a close: no hold is left, and the last operation is not far. */
  predicate Closing(l: Local, k: nat) {
    && l.closed && !l.writing
    && match l.at
       case CloseUnlink => k == 0
       case CloseRmdir => k == 1
       case CloseRewrite => k == 2
       case CloseRemove => k <= 3 && !l.sharing
       case Closed => k >= 1 && !l.sharing
       case _ => false
  }

  lemma {:induction false} CloseStages(s: State, events: seq<Event>, a: World)
    requires a < |s.worlds| && GoesOn(events, a)
    ensures Closing(After(Apply(s, Calls(a, Close)), events).worlds[a], Performed(events, a))
    decreases |events|
  {
    if events != [] {
      var front, last := events[..|events| - 1], events[|events| - 1];
      CloseStages(s, front, a);
      if last.world != a { OthersLeaveIt(After(Apply(s, Calls(a, Close)), front), last, a); }
    }
  }

  /**
   `close`, wherever it comes (a pause of another call included), refuses further use and drops every hold at once; after at most
   four operations of its own the lock is closed, without a writer directory or a shared file of this world.
  */
  lemma CloseLetsGo(start: State, before: seq<Event>, events: seq<Event>, a: World)
    requires Start(start) && Valid(start, before) && a < |start.worlds| && GoesOn(events, a)
    requires Enabled(After(start, before), Calls(a, Close))
    requires Valid(Apply(After(start, before), Calls(a, Close)), events)
    ensures var u := After(Apply(After(start, before), Calls(a, Close)), events);
            && u.worlds[a].closed && !HoldsExclusive(u.worlds[a]) && !HoldsShared(u.worlds[a])
            && (Performed(events, a) >= 4 ==>
                  && u.worlds[a].at.Closed?
                  && a !in u.dir.shared && !(u.dir.writer.Held? && u.dir.writer.creator == a))
  {
    var s := After(start, before);
    InvHolds(start, before);
    CallKeepsInv(s, a, Close);
    var t := Apply(s, Calls(a, Close));
    CloseStages(s, events, a);
    RunKeepsInv(t, events);
    StaysAlive(t, events, a);
    var u := After(t, events);
    assert SlotOk(u, a) && FileOk(u, a);
  }

  // ---- acquire and share ----

  predicate Acquiring(l: Local, was: Local) {
    && l.sharing == was.sharing && !l.closed
    && (if l.at.Idle? then l.writing else AcquirePoint(l.at))
  }

  lemma AcquireGoesOn(me: World, l: Local, was: Local, d: Directory, alive: set<World>, c: Choice)
    requires Acquiring(l, was) && LocalOk(l)
    ensures Acquiring(Advance(me, l, d, alive, c).0, was)
  {
  }

  lemma {:induction false} AcquireStages(s: State, events: seq<Event>, a: World)
    requires a < |s.worlds| && s.worlds[a].at.Idle? && !s.worlds[a].closed && GoesOn(events, a)
    requires Valid(Apply(s, Calls(a, Acquire)), events) && LocalOk(s.worlds[a])
    ensures Acquiring(After(Apply(s, Calls(a, Acquire)), events).worlds[a], s.worlds[a])
    ensures LocalOk(After(Apply(s, Calls(a, Acquire)), events).worlds[a])
    decreases |events|
  {
    if events == [] {
      CallKeepsLocal(s.worlds[a], Acquire);
    } else {
      var front, last := events[..|events| - 1], events[|events| - 1];
      AcquireStages(s, front, a);
      var t := After(Apply(s, Calls(a, Acquire)), front);
      if last.world != a {
        OthersLeaveIt(t, last, a);
      } else {
        StepKeepsLocal(a, t.worlds[a], t.dir, t.alive, last.choice);
        AcquireGoesOn(a, t.worlds[a], s.worlds[a], t.dir, t.alive, last.choice);
      }
      hide Advance, Acquiring, LocalOk, Begin;
    }
  }

  /**
   `acquire` comes back only with the hold: whenever, after an `acquire` of an open lock, the world is idle again, it holds the lock
   exclusively, its directory stands under its name, and what it shared it shares, with its file.
  */
  lemma AcquireReturnsHolding(start: State, before: seq<Event>, events: seq<Event>, a: World)
    requires Start(start) && Valid(start, before) && a < |start.worlds| && GoesOn(events, a)
    requires var s := After(start, before); a in s.alive && s.worlds[a].at.Idle? && !s.worlds[a].closed
    requires Valid(Apply(After(start, before), Calls(a, Acquire)), events)
    ensures var s := After(start, before);
            var u := After(Apply(s, Calls(a, Acquire)), events);
            u.worlds[a].at.Idle? ==>
              && HoldsExclusive(u.worlds[a]) && u.dir.writer == Held(a, true)
              && u.worlds[a].sharing == s.worlds[a].sharing && (a in u.dir.shared <==> s.worlds[a].sharing)
  {
    var s := After(start, before);
    InvHolds(start, before);
    assert SlotOk(s, a);
    CallKeepsInv(s, a, Acquire);
    var t := Apply(s, Calls(a, Acquire));
    AcquireStages(s, events, a);
    RunKeepsInv(t, events);
    StaysAlive(t, events, a);
    var u := After(t, events);
    assert SlotOk(u, a) && FileOk(u, a);
  }

  predicate Sharing(l: Local, was: Local) {
    && l.writing == was.writing && !l.closed
    && (if l.at.Idle? then l.sharing else SharePoint(l.at) && !l.at.UnshareRemove?)
  }

  lemma {:induction false} ShareStages(s: State, events: seq<Event>, a: World)
    requires a < |s.worlds| && s.worlds[a].at.Idle? && !s.worlds[a].closed && GoesOn(events, a)
    ensures Sharing(After(Apply(s, Calls(a, Share)), events).worlds[a], s.worlds[a])
    decreases |events|
  {
    if events != [] {
      var front, last := events[..|events| - 1], events[|events| - 1];
      ShareStages(s, front, a);
      if last.world != a { OthersLeaveIt(After(Apply(s, Calls(a, Share)), front), last, a); }
    }
  }

  /** `share` comes back only with the hold: whenever the world is idle again it shares the lock, and its file is there. */
  lemma ShareReturnsHolding(start: State, before: seq<Event>, events: seq<Event>, a: World)
    requires Start(start) && Valid(start, before) && a < |start.worlds| && GoesOn(events, a)
    requires var s := After(start, before); a in s.alive && s.worlds[a].at.Idle? && !s.worlds[a].closed
    requires Valid(Apply(After(start, before), Calls(a, Share)), events)
    ensures var s := After(start, before);
            var u := After(Apply(s, Calls(a, Share)), events);
            u.worlds[a].at.Idle? ==>
              HoldsShared(u.worlds[a]) && a in u.dir.shared && u.worlds[a].writing == s.worlds[a].writing
  {
    var s := After(start, before);
    InvHolds(start, before);
    CallKeepsInv(s, a, Share);
    var t := Apply(s, Calls(a, Share));
    ShareStages(s, events, a);
    RunKeepsInv(t, events);
    StaysAlive(t, events, a);
    var u := After(t, events);
    assert FileOk(u, a);
  }

  /** An uncontended `acquire` returns by its own steps: nobody alive has the slot, and nobody else alive shares. */
  lemma FreeAcquireReturns(s: State, a: World) returns (cs: seq<Choice>)
    requires Inv(s) && a in s.alive && a < |s.worlds| && s.worlds[a].at.Idle? && !s.worlds[a].writing && !s.worlds[a].closed
    requires s.dir.writer.Held? ==> s.dir.writer.creator !in s.alive
    requires forall j :: j in s.dir.shared && j != a ==> j !in s.alive
    ensures Returns(Apply(s, Calls(a, Acquire)), a, Acquire, cs)
  {
    assert FileOk(s, a) && SlotOk(s, a);
    var t := Apply(s, Calls(a, Acquire));
    if s.worlds[a].sharing {
      cs := MkdirReturns(Apply(t, Steps(a, Aged)), a);
      OwnStep(t, a, Aged, Acquire, cs);
      cs := [Aged] + cs;
    } else {
      cs := MkdirReturns(t, a);
    }
  }

  lemma MkdirReturns(s: State, a: World) returns (cs: seq<Choice>)
    requires a < |s.worlds| && a in s.alive && s.worlds[a].at.AcquireMkdir? && OnlyDeadFiles(s)
    requires s.dir.writer.Held? ==> s.dir.writer.creator !in s.alive
    ensures Returns(s, a, Acquire, cs)
  {
    if s.dir.writer.Absent? {
      cs := FreeSlotReturns(s, a);
    } else {
      var t := Apply(s, Steps(a, Aged));
      cs := SlotWaiterReturns(Apply(t, Steps(a, Aged)), a);
      OwnStep(t, a, Aged, Acquire, cs);
      cs := [Aged] + cs;
      OwnStep(s, a, Aged, Acquire, cs);
      cs := [Aged] + cs;
    }
  }

  /** An uncontended `share` returns by its own steps: the slot is free, or named by a world that died, or this world's own. */
  lemma FreeShareCallReturns(s: State, a: World) returns (cs: seq<Choice>)
    requires Inv(s) && a in s.alive && a < |s.worlds| && s.worlds[a].at.Idle? && !s.worlds[a].sharing && !s.worlds[a].closed
    requires s.worlds[a].writing || (s.dir.writer.Held? ==> s.dir.writer.named && s.dir.writer.creator !in s.alive)
    ensures Returns(Apply(s, Calls(a, Share)), a, Share, cs)
  {
    var t := Apply(s, Calls(a, Share));
    if s.worlds[a].writing {
      OwnStep(t, a, Aged, Share, []);
      cs := [Aged] + [];
    } else {
      var w := t.(worlds := t.worlds[a := t.worlds[a].(at := ShareWait)]);
      assert Apply(w, Steps(a, Aged)) == t by {
        assert Apply(w, Steps(a, Aged)).worlds == t.worlds;
      }
      cs := ShareWaiterReturns(w, a);
      cs := cs[1..];
    }
  }

  // ---- Calls with nothing to do ----

  /** A closed lock refuses everything, a second `share` or `acquire` finds its hold, and nothing is given back that is not held. */
  lemma NothingToDo(s: State, a: World, call: Call)
    requires a < |s.worlds| && LocalOk(s.worlds[a]) && MayCall(s.worlds[a], call)
    requires match call
             case Share => s.worlds[a].closed || s.worlds[a].sharing
             case Acquire => s.worlds[a].closed || s.worlds[a].writing
             case Unshare => !s.worlds[a].sharing
             case Release => !s.worlds[a].writing
             case Close => false
    ensures Apply(s, Calls(a, call)) == s
  {
    assert Apply(s, Calls(a, call)).worlds == s.worlds;
  }

  // ---- Who may be broken, and who is waited for ----

  /** A writer directory goes or changes only by its own world, or because that world is dead and the directory named or old. */
  lemma OnlyStaleIsBroken(s: State, e: Event)
    requires Inv(s) && Enabled(s, e) && s.dir.writer.Held? && Apply(s, e).dir.writer != s.dir.writer
    ensures e.Steps?
    ensures e.world == s.dir.writer.creator
            || (s.dir.writer.creator !in s.alive && (s.dir.writer.named || e.choice.aged) && Apply(s, e).dir.writer.Absent?)
  {
    assert SlotOk(s, e.world);
  }

  /** Two more steps of a queuing world take a free slot. */
  lemma FreeSlotIsTaken(s: State, i: World)
    requires i < |s.worlds| && i in s.alive && s.worlds[i].at.AcquireSlotWait? && s.dir.writer.Absent?
    ensures Apply(Apply(s, Steps(i, Aged)), Steps(i, Aged)).dir.writer == Held(i, false)
  {
  }

  /**
   Whoever pauses waits for somebody: if no live world is waited for, the pause ends by the world's own steps. A queuing world then
   takes the slot; the one exception is a reader before an orphaned writer directory.
  */
  lemma WaitHasReason(s: State, i: World)
    requires Inv(s) && Waits(s, i) && forall j :: WaitsFor(s, i, j) ==> j !in s.alive
    ensures match s.worlds[i].at
            case ShareWait => Orphan(s) || exists cs :: WaitEnds(s, i, cs)
            case AcquireDrainWait => exists cs :: WaitEnds(s, i, cs)
            case _ => SlotComesFree(s, i)
  {
    assert SlotOk(s, i) && FileOk(s, i);
    match s.worlds[i].at
    case ShareWait =>
      if !Orphan(s) {
        assert s.dir.writer.Held? && s.dir.writer.creator != i ==> WaitsFor(s, i, s.dir.writer.creator);
        var cs := ShareWaiterReturns(s, i);
        assert WaitEnds(s, i, cs);
      }
    case AcquireDrainWait =>
      forall j | j in s.dir.shared ensures j !in s.alive {
        assert j != i ==> WaitsFor(s, i, j);
      }
      var cs := DrainWaiterReturns(s, i);
      assert WaitEnds(s, i, cs);
    case AcquireSlotWait =>
      assert s.dir.writer.Held? ==> WaitsFor(s, i, s.dir.writer.creator);
      if s.dir.writer.Absent? {
        FreeSlotIsTaken(s, i);
      } else {
        FreeSlotIsTaken(ThreeSteps(s, i), i);
      }
  }

  /** Once round the loop of a queuing world: the attempt, the look for a stale writer, the pause. */
  function ThreeSteps(s: State, i: World): State {
    Apply(Apply(Apply(s, Steps(i, Aged)), Steps(i, Aged)), Steps(i, Aged))
  }

  /** The queuing world has the slot after its next attempt, or the one after that. */
  predicate SlotComesFree(s: State, i: World)
    requires i < |s.worlds|
  {
    || Apply(Apply(s, Steps(i, Aged)), Steps(i, Aged)).dir.writer == Held(i, false)
    || Apply(Apply(ThreeSteps(s, i), Steps(i, Aged)), Steps(i, Aged)).dir.writer == Held(i, false)
  }

  /** A holder of the lock shared is one of those that writers wait for and whose number never grows under a writer. */
  lemma HolderIsEntrant(s: State, j: World)
    requires Inv(s) && j in s.alive && j < |s.worlds| && HoldsShared(s.worlds[j])
    ensures j in s.dir.shared && Entrant(s, j)
  {
    assert FileOk(s, j) && SlotOk(s, j);
  }

  /**
   Writers win, in plain words: while a live writer's directory stands, nobody comes to hold the lock shared who had no shared file
   and was not already past the check.
  */
  lemma NoNewHolder(s: State, events: seq<Event>, c: World, j: World)
    requires Inv(s) && Valid(s, events) && StandsThroughout(s, events, c) && j < |s.worlds| && j != c
    requires j in After(s, events).alive && HoldsShared(After(s, events).worlds[j])
    ensures var p := s.worlds[j].at;
            j in s.dir.shared || p.ShareWrite? || p == ShareBreak(First) || p.ReleaseRewrite? || p.CloseRewrite?
  {
    RunKeepsInv(s, events);
    HolderIsEntrant(After(s, events), j);
    WritersWin(s, events, c, j);
  }
}
