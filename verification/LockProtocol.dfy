/**
 The outage lock of a run as a step protocol: any number of worlds, each the straight-line code of its own lock object,
 interleaved at every single file operation on the shared lock directory. A process may die at any step.
*/
module LockProtocol {

  type World = nat

  /** The directory `exclusive.lock`: absent, or made by one world, with or without its `owner` file inside. */
  datatype WriterDir = Absent | Held(creator: World, named: bool)

  /** The lock directory of the run: the writer slot and the names of the shared-holder files. */
  datatype Directory = Directory(writer: WriterDir, shared: set<World>)

  /** Whether `share` is before or after writing its own shared file. */
  datatype Round = First | Second

  /** Where a world's pending call stands: the file operation (or the pause) it performs next. */
  datatype Point =
    | Idle
    // share
    | ShareStat(round: Round) | ShareRead(round: Round) | ShareBreak(round: Round)
    | ShareWrite | ShareRemove | ShareWait
    // unshare
    | UnshareRemove
    // acquire: the writer slot
    | AcquireRemove | AcquireMkdir | AcquireOwner | AcquireBreak | AcquireSlotWait
    // acquire: the shared holders
    | AcquireList | AcquireScan(names: seq<World>, found: bool) | AcquireForget(dead: World, names: seq<World>, found: bool)
    | AcquireDrainWait | AcquireRewrite
    // release
    | ReleaseUnlink | ReleaseRmdir | ReleaseRewrite
    // close
    | CloseUnlink | CloseRmdir | CloseRewrite | CloseRemove | Closed

  /** The fields of one lock object and the point of its pending call. */
  datatype Local = Local(at: Point, sharing: bool, writing: bool, closed: bool)

  const Fresh := Local(Idle, false, false, false)

  /** What the surroundings decide at a step: whether an unnamed writer directory is old enough to be broken, and the order of a listing. */
  datatype Choice = Choice(aged: bool, listing: seq<World>)

  datatype Call = Share | Unshare | Acquire | Release | Close

  // ---- The code of one world ----

  /** `otherWriter() === null` held: `share` goes on to write its file, or returns holding the lock shared. */
  function SharePassed(l: Local, round: Round): Local {
    match round
    case First => l.(at := ShareWrite)
    case Second => l.(at := Idle, sharing := true)
  }

  /** Another world holds the writer slot: `share` takes back its own file (if written) and pauses. */
  function ShareBlocked(l: Local, round: Round): Local {
    match round
    case First => l.(at := ShareWait)
    case Second => l.(at := ShareRemove)
  }

  /** The read and the rename of `breakStaleWriter`, as one step. */
  function BreakStale(me: World, d: Directory, alive: set<World>, aged: bool): Directory {
    match d.writer
    case Absent => d
    case Held(w, named) =>
      if named then (if w == me || w in alive then d else d.(writer := Absent))
      else if w in alive || !aged then d else d.(writer := Absent)
  }

  /** The exclusive hold is complete: a world that was sharing writes its shared file again. */
  function Drained(l: Local): Local {
    if l.sharing then l.(at := AcquireRewrite) else l.(at := Idle)
  }

  /** The local state right after the file operation at `l.at`, and the directory it leaves. */
  function Advance(me: World, l: Local, d: Directory, alive: set<World>, c: Choice): (Local, Directory) {
    match l.at
    case Idle => (l, d)
    case ShareStat(r) => (if d.writer.Absent? then SharePassed(l, r) else l.(at := ShareRead(r)), d)
    case ShareRead(r) =>
      (if d.writer.Absent? || !d.writer.named then ShareBlocked(l, r)
       else if d.writer.creator == me then SharePassed(l, r)
       else if d.writer.creator !in alive then l.(at := ShareBreak(r))
       else ShareBlocked(l, r), d)
    case ShareBreak(r) => (SharePassed(l, r), BreakStale(me, d, alive, c.aged))
    case ShareWrite =>
      (if l.writing then SharePassed(l, Second) else l.(at := ShareStat(Second)), d.(shared := d.shared + {me}))
    case ShareRemove => (l.(at := ShareWait), d.(shared := d.shared - {me}))
    case ShareWait => (l.(at := ShareStat(First)), d)
    case UnshareRemove => (l.(at := Idle), d.(shared := d.shared - {me}))
    case AcquireRemove => (l.(at := AcquireMkdir), d.(shared := d.shared - {me}))
    case AcquireMkdir =>
      if d.writer.Absent? then (l.(at := AcquireOwner), d.(writer := Held(me, false))) else (l.(at := AcquireBreak), d)
    case AcquireOwner => (l.(at := AcquireList, writing := true), d.(writer := Held(me, true)))
    case AcquireBreak => (l.(at := AcquireSlotWait), BreakStale(me, d, alive, c.aged))
    case AcquireSlotWait => (l.(at := AcquireMkdir), d)
    case AcquireList => (l.(at := AcquireScan(c.listing, false)), d)
    case AcquireScan(names, found) =>
      if names == [] then (if found then l.(at := AcquireDrainWait) else Drained(l), d)
      else if names[0] == me then (l.(at := AcquireScan(names[1..], found)), d)
      else if names[0] in d.shared && names[0] !in alive then (l.(at := AcquireForget(names[0], names[1..], found)), d)
      else (l.(at := AcquireScan(names[1..], true)), d)
    case AcquireForget(dead, names, found) => (l.(at := AcquireScan(names, found)), d.(shared := d.shared - {dead}))
    case AcquireDrainWait => (l.(at := AcquireList), d)
    case AcquireRewrite => (l.(at := Idle), d.(shared := d.shared + {me}))
    case ReleaseUnlink => (l.(at := ReleaseRmdir), d.(writer := Held(me, false)))
    case ReleaseRmdir => (l.(at := if l.sharing then ReleaseRewrite else Idle), d.(writer := Absent))
    case ReleaseRewrite => (l.(at := Idle), d.(shared := d.shared + {me}))
    case CloseUnlink => (l.(at := CloseRmdir), d.(writer := Held(me, false)))
    case CloseRmdir => (if l.sharing then l.(at := CloseRewrite) else l.(at := CloseRemove), d.(writer := Absent))
    case CloseRewrite => (l.(at := CloseRemove, sharing := false), d.(shared := d.shared + {me}))
    case CloseRemove => (l.(at := Closed), d.(shared := d.shared - {me}))
    case Closed => (l, d)
  }

  /** A pause, where the world's own `close` may come in between. */
  predicate Suspended(p: Point) {
    p.ShareWait? || p.AcquireSlotWait? || p.AcquireDrainWait?
  }

  /** Calls come one at a time, on a closed lock too; only `close` may come while another call is suspended in its pause. */
  predicate MayCall(l: Local, call: Call) {
    l.at.Idle? || l.at.Closed? || (call.Close? && Suspended(l.at))
  }

  /** The local part of a call, up to its first file operation. A closed lock refuses `share` and `acquire`. */
  function Begin(l: Local, call: Call): Local {
    match call
    case Share => if l.closed || l.sharing then l else if l.writing then l.(at := ShareWrite) else l.(at := ShareStat(First))
    case Unshare => if l.sharing then l.(at := UnshareRemove, sharing := false) else l
    case Acquire => if l.closed || l.writing then l else l.(at := if l.sharing then AcquireRemove else AcquireMkdir)
    case Release => if l.writing then l.(at := ReleaseUnlink, writing := false) else l
    case Close =>
      if l.writing then Local(CloseUnlink, l.sharing, false, true) else Local(CloseRemove, false, false, true)
  }

  // ---- The run ----

  datatype State = State(worlds: seq<Local>, dir: Directory, alive: set<World>)

  datatype Event = Calls(world: World, call: Call) | Steps(world: World, choice: Choice) | Dies(world: World)

  ghost predicate Start(s: State) {
    && s.dir == Directory(Absent, {})
    && (forall i: World :: i in s.alive <==> i < |s.worlds|)
    && forall i :: 0 <= i < |s.worlds| ==> s.worlds[i] == Fresh
  }

  ghost predicate Enabled(s: State, e: Event) {
    && e.world < |s.worlds|
    && e.world in s.alive
    && match e
       case Calls(i, call) => MayCall(s.worlds[i], call)
       case Steps(i, c) => s.worlds[i].at.AcquireList? ==> forall j: World :: j in s.dir.shared <==> j in c.listing
       case Dies(i) => true
  }

  function Apply(s: State, e: Event): (t: State)
    ensures |t.worlds| == |s.worlds|
    ensures forall j :: 0 <= j < |s.worlds| && j != e.world ==> t.worlds[j] == s.worlds[j]
  {
    if e.world >= |s.worlds| then s
    else match e
      case Calls(i, call) => s.(worlds := s.worlds[i := Begin(s.worlds[i], call)])
      case Steps(i, c) =>
        var (l, d) := Advance(i, s.worlds[i], s.dir, s.alive, c);
        s.(worlds := s.worlds[i := l], dir := d)
      case Dies(i) => s.(alive := s.alive - {i})
  }

  /** The state after a run of events. */
  function After(s: State, events: seq<Event>): (t: State)
    ensures |t.worlds| == |s.worlds|
  {
    if events == [] then s else Apply(After(s, events[..|events| - 1]), events[|events| - 1])
  }

  /** Every event of the run is possible when it happens. */
  ghost predicate Valid(s: State, events: seq<Event>) {
    events == [] || (Valid(s, events[..|events| - 1]) && Enabled(After(s, events[..|events| - 1]), events[|events| - 1]))
  }

  // ---- What a world holds ----

  /** Inside `acquire`, with the world's own shared file gone. */
  predicate GaveUpFile(p: Point) {
    p.AcquireMkdir? || p.AcquireOwner? || p.AcquireBreak? || p.AcquireSlotWait? || p.AcquireList? || p.AcquireScan?
    || p.AcquireForget? || p.AcquireDrainWait? || p.AcquireRewrite?
  }

  /** From the return of `acquire` until `release` or `close`. */
  predicate HoldsExclusive(l: Local) {
    l.writing && !GaveUpFile(l.at)
  }

  /** From the return of `share` until `unshare` or `close`, except inside the world's own `acquire` with its file gone. */
  predicate HoldsShared(l: Local) {
    l.sharing && !l.closed && !GaveUpFile(l.at)
  }

  /** The world stands between its successful `mkdir` and the `rmdir` of its release. */
  predicate Owns(l: Local) {
    l.writing || l.at.AcquireOwner? || l.at.ReleaseUnlink? || l.at.ReleaseRmdir? || l.at.CloseUnlink? || l.at.CloseRmdir?
  }

  predicate Named(l: Local) {
    l.writing || l.at.ReleaseUnlink? || l.at.CloseUnlink?
  }

  predicate ClosePoint(p: Point) {
    p.CloseUnlink? || p.CloseRmdir? || p.CloseRewrite? || p.CloseRemove? || p.Closed?
  }

  /** The shared file of a world exists at this point (undetermined inside `close`). */
  predicate HasFile(l: Local) {
    match l.at
    case ShareStat(r) => r.Second?
    case ShareRead(r) => r.Second?
    case ShareBreak(r) => r.Second?
    case ShareRemove => true
    case UnshareRemove => true
    case AcquireRemove => true
    case _ => l.sharing && !GaveUpFile(l.at)
  }

  /** Which fields go with which point. */
  predicate LocalOk(l: Local) {
    && (l.closed <==> ClosePoint(l.at))
    && match l.at
       case Idle => true
       case ShareStat(_) => !l.sharing && !l.writing
       case ShareRead(_) => !l.sharing && !l.writing
       case ShareBreak(_) => !l.sharing && !l.writing
       case ShareWrite => !l.sharing
       case ShareRemove => !l.sharing && !l.writing
       case ShareWait => !l.sharing && !l.writing
       case UnshareRemove => !l.sharing
       case AcquireRemove => l.sharing && !l.writing
       case AcquireMkdir => !l.writing
       case AcquireOwner => !l.writing
       case AcquireBreak => !l.writing
       case AcquireSlotWait => !l.writing
       case AcquireRewrite => l.writing && l.sharing
       case AcquireList => l.writing
       case AcquireScan(_, _) => l.writing
       case AcquireForget(_, _, _) => l.writing
       case AcquireDrainWait => l.writing
       case ReleaseUnlink => !l.writing
       case ReleaseRmdir => !l.writing
       case ReleaseRewrite => !l.writing && l.sharing
       case CloseUnlink => !l.writing
       case CloseRmdir => !l.writing
       case CloseRewrite => !l.writing && l.sharing
       case CloseRemove => !l.writing && !l.sharing
       case Closed => !l.writing && !l.sharing
  }

  /** The world holds the lock shared, or has read a dead writer and will return holding it. */
  predicate Entered(l: Local) {
    HoldsShared(l) || l.at == ShareBreak(Second)
  }

  /** The world `j` is no longer something the writer at `l` has yet to see. */
  predicate SeenBy(l: Local, j: World) {
    match l.at
    case AcquireList => false
    case AcquireDrainWait => false
    case AcquireScan(names, found) => !found && j !in names
    case AcquireForget(_, names, found) => !found && j !in names
    case _ => true
  }

  // ---- The invariant of every run ----

  ghost predicate SlotOk(s: State, i: World)
    requires i < |s.worlds|
  {
    && LocalOk(s.worlds[i])
    && (i in s.alive && Owns(s.worlds[i]) ==> s.dir.writer == Held(i, Named(s.worlds[i])))
    && (i in s.alive && s.dir.writer.Held? && s.dir.writer.creator == i ==> Owns(s.worlds[i]))
  }

  ghost predicate FileOk(s: State, i: World)
    requires i < |s.worlds|
  {
    && (i in s.alive && !ClosePoint(s.worlds[i].at) ==> (i in s.dir.shared <==> HasFile(s.worlds[i])))
    && (i in s.alive && s.worlds[i].at.Closed? ==> i !in s.dir.shared)
    && (s.worlds[i].at.AcquireForget? ==> s.worlds[i].at.dead !in s.alive)
  }

  ghost predicate PairOk(s: State, i: World, j: World)
    requires i < |s.worlds| && j < |s.worlds|
  {
    i in s.alive && j in s.alive && i != j && s.worlds[i].writing && SeenBy(s.worlds[i], j) ==> !Entered(s.worlds[j])
  }

  ghost predicate Inv(s: State) {
    && (forall i: World :: i in s.alive ==> i < |s.worlds|)
    && (forall i: World :: i in s.dir.shared ==> i < |s.worlds|)
    && (s.dir.writer.Held? ==> s.dir.writer.creator < |s.worlds|)
    && (forall i: World :: i < |s.worlds| ==> SlotOk(s, i))
    && (forall i: World :: i < |s.worlds| ==> FileOk(s, i))
    && (forall i: World, j: World :: i < |s.worlds| && j < |s.worlds| ==> PairOk(s, i, j))
  }

  lemma CallKeepsLocal(l: Local, call: Call)
    requires LocalOk(l) && MayCall(l, call)
    ensures LocalOk(Begin(l, call))
    ensures Owns(Begin(l, call)) == Owns(l) && (Owns(l) ==> Named(Begin(l, call)) == Named(l))
    ensures !ClosePoint(Begin(l, call).at) ==> HasFile(Begin(l, call)) == HasFile(l)
    ensures Begin(l, call).writing ==> l.writing && forall j :: SeenBy(Begin(l, call), j) == SeenBy(l, j)
    ensures Entered(Begin(l, call)) ==> Entered(l)
  {
  }

  lemma CallKeepsInv(s: State, i: World, call: Call)
    requires Inv(s) && Enabled(s, Calls(i, call))
    ensures Inv(Apply(s, Calls(i, call)))
  {
    var t := Apply(s, Calls(i, call));
    assert SlotOk(s, i);
    CallKeepsLocal(s.worlds[i], call);
    forall a: World | a < |t.worlds| ensures SlotOk(t, a) {
      assert SlotOk(s, a);
    }
    forall a: World | a < |t.worlds| ensures FileOk(t, a) {
      assert FileOk(s, a);
    }
    forall a: World, b: World | a < |t.worlds| && b < |t.worlds| ensures PairOk(t, a, b) {
      assert PairOk(s, a, b);
    }
  }

  lemma DeathKeepsInv(s: State, i: World)
    requires Inv(s) && Enabled(s, Dies(i))
    ensures Inv(Apply(s, Dies(i)))
  {
    var t := Apply(s, Dies(i));
    forall a: World | a < |t.worlds| ensures SlotOk(t, a) && FileOk(t, a) {
      assert SlotOk(s, a) && FileOk(s, a);
    }
    forall a: World, b: World | a < |t.worlds| && b < |t.worlds| ensures PairOk(t, a, b) {
      assert PairOk(s, a, b);
    }
  }

  predicate SharePoint(p: Point) {
    p.ShareStat? || p.ShareRead? || p.ShareBreak? || p.ShareWrite? || p.ShareRemove? || p.ShareWait? || p.UnshareRemove?
  }

  predicate AcquirePoint(p: Point) {
    p.AcquireRemove? || GaveUpFile(p)
  }

  lemma ShareKeepsLocal(me: World, l: Local, d: Directory, alive: set<World>, c: Choice)
    requires LocalOk(l) && SharePoint(l.at)
    ensures LocalOk(Advance(me, l, d, alive, c).0)
  {
  }

  lemma AcquireKeepsLocal(me: World, l: Local, d: Directory, alive: set<World>, c: Choice)
    requires LocalOk(l) && AcquirePoint(l.at)
    ensures LocalOk(Advance(me, l, d, alive, c).0)
  {
  }

  lemma ReleaseKeepsLocal(me: World, l: Local, d: Directory, alive: set<World>, c: Choice)
    requires LocalOk(l) && !SharePoint(l.at) && !AcquirePoint(l.at)
    ensures LocalOk(Advance(me, l, d, alive, c).0)
  {
  }

  /** Every file operation leaves a lock object with fields that go with the operation it performs next. */
  lemma StepKeepsLocal(me: World, l: Local, d: Directory, alive: set<World>, c: Choice)
    requires LocalOk(l)
    ensures LocalOk(Advance(me, l, d, alive, c).0)
  {
    hide *;
    if SharePoint(l.at) {
      ShareKeepsLocal(me, l, d, alive, c);
    } else if AcquirePoint(l.at) {
      AcquireKeepsLocal(me, l, d, alive, c);
    } else {
      ReleaseKeepsLocal(me, l, d, alive, c);
    }
  }

  /** A step changes the slot only for who takes it, names it, breaks it or gives it back. */
  lemma SlotStep(me: World, l: Local, d: Directory, alive: set<World>, c: Choice, j: World)
    requires LocalOk(l) && me in alive && j in alive
    requires Owns(l) ==> d.writer == Held(me, Named(l))
    requires d.writer.Held? && d.writer.creator == me ==> Owns(l)
    ensures var (l', d') := Advance(me, l, d, alive, c);
            && (Owns(l') ==> d'.writer == Held(me, Named(l')))
            && (d'.writer.Held? && d'.writer.creator == me ==> Owns(l'))
            && (j != me && d.writer.Held? && d.writer.creator == j ==> d'.writer == d.writer)
            && (j != me && d'.writer.Held? && d'.writer.creator == j ==> d'.writer == d.writer)
  {
  }

  lemma StepKeepsSlots(s: State, i: World, c: Choice, a: World)
    requires Inv(s) && Enabled(s, Steps(i, c)) && a < |s.worlds|
    ensures SlotOk(Apply(s, Steps(i, c)), a)
  {
    assert SlotOk(s, a) && SlotOk(s, i);
    StepKeepsLocal(i, s.worlds[i], s.dir, s.alive, c);
    SlotStep(i, s.worlds[i], s.dir, s.alive, c, if a in s.alive then a else i);
    hide Advance, LocalOk, Owns, Named, Inv;
  }

  /** A step leaves the shared files of the other live worlds alone. */
  lemma OthersFiles(me: World, l: Local, d: Directory, alive: set<World>, c: Choice, j: World)
    requires me in alive && j in alive && j != me
    requires l.at.AcquireForget? ==> l.at.dead !in alive
    ensures j in Advance(me, l, d, alive, c).1.shared <==> j in d.shared
  {
  }

  /** A world's own shared file is where its code says it is; none is left once it is closed. */
  predicate OwnFileOk(me: World, l: Local, d: Directory) {
    && (!ClosePoint(l.at) ==> (me in d.shared <==> HasFile(l)))
    && (l.at.Closed? ==> me !in d.shared)
  }

  lemma ShareKeepsFile(me: World, l: Local, d: Directory, alive: set<World>, c: Choice)
    requires LocalOk(l) && SharePoint(l.at) && OwnFileOk(me, l, d)
    ensures OwnFileOk(me, Advance(me, l, d, alive, c).0, Advance(me, l, d, alive, c).1)
  {
  }

  lemma AcquireKeepsFile(me: World, l: Local, d: Directory, alive: set<World>, c: Choice)
    requires LocalOk(l) && AcquirePoint(l.at) && OwnFileOk(me, l, d)
    requires l.at.AcquireForget? ==> l.at.dead != me
    ensures OwnFileOk(me, Advance(me, l, d, alive, c).0, Advance(me, l, d, alive, c).1)
  {
  }

  lemma ReleaseKeepsFile(me: World, l: Local, d: Directory, alive: set<World>, c: Choice)
    requires LocalOk(l) && !SharePoint(l.at) && !AcquirePoint(l.at) && OwnFileOk(me, l, d)
    ensures OwnFileOk(me, Advance(me, l, d, alive, c).0, Advance(me, l, d, alive, c).1)
  {
  }

  /** A world's own shared file is there exactly where its code says so. */
  lemma FileStep(me: World, l: Local, d: Directory, alive: set<World>, c: Choice)
    requires LocalOk(l) && me in alive && OwnFileOk(me, l, d)
    requires l.at.AcquireForget? ==> l.at.dead !in alive
    ensures OwnFileOk(me, Advance(me, l, d, alive, c).0, Advance(me, l, d, alive, c).1)
  {
    hide *;
    if SharePoint(l.at) {
      ShareKeepsFile(me, l, d, alive, c);
    } else if AcquirePoint(l.at) {
      AcquireKeepsFile(me, l, d, alive, c);
    } else {
      ReleaseKeepsFile(me, l, d, alive, c);
    }
  }

  /** A scan forgets only the files of the dead. */
  lemma ForgetsTheDead(me: World, l: Local, d: Directory, alive: set<World>, c: Choice)
    requires l.at.AcquireForget? ==> l.at.dead !in alive
    ensures Advance(me, l, d, alive, c).0.at.AcquireForget? ==> Advance(me, l, d, alive, c).0.at.dead !in alive
  {
  }

  lemma StepKeepsFiles(s: State, i: World, c: Choice, a: World)
    requires Inv(s) && Enabled(s, Steps(i, c)) && a < |s.worlds|
    ensures FileOk(Apply(s, Steps(i, c)), a)
  {
    assert FileOk(s, a) && FileOk(s, i) && SlotOk(s, i);
    FileStep(i, s.worlds[i], s.dir, s.alive, c);
    ForgetsTheDead(i, s.worlds[i], s.dir, s.alive, c);
    if a in s.alive && a != i { OthersFiles(i, s.worlds[i], s.dir, s.alive, c, a); }
    hide Advance, LocalOk, HasFile, Inv;
  }

  /** The writer's side: it gets past a reader only where its listing does not show that reader. */
  lemma WriterPasses(me: World, l: Local, d: Directory, alive: set<World>, c: Choice, reader: World)
    requires LocalOk(l) && reader in alive && reader != me
    requires l.at.AcquireList? ==> (reader in d.shared <==> reader in c.listing)
    ensures var next := Advance(me, l, d, alive, c).0;
            next.writing && SeenBy(next, reader) ==> (l.writing && SeenBy(l, reader)) || reader !in d.shared
  {
  }

  /** The reader's side: it enters only over a slot that no other live world has named, unless it is the writer itself. */
  lemma ReaderEnters(me: World, l: Local, d: Directory, alive: set<World>, c: Choice)
    requires LocalOk(l)
    ensures Entered(Advance(me, l, d, alive, c).0) ==>
              Entered(l) || l.writing || d.writer.Absent? || d.writer.creator == me || d.writer.creator !in alive
  {
  }

  /** Whoever has entered has a shared file. */
  lemma EnteredHasFile(l: Local)
    requires LocalOk(l) && Entered(l)
    ensures HasFile(l) && !ClosePoint(l.at)
  {
  }

  /** The Dekker argument: a reader that was there is in the writer's listing, a reader that comes later sees the writer. */
  lemma StepKeepsPairs(s: State, i: World, c: Choice, a: World, b: World)
    requires Inv(s) && Enabled(s, Steps(i, c)) && a < |s.worlds| && b < |s.worlds|
    ensures PairOk(Apply(s, Steps(i, c)), a, b)
  {
    assert PairOk(s, a, b) && SlotOk(s, a) && SlotOk(s, b) && FileOk(s, b);
    if a in s.alive && b in s.alive && a != b {
      if Entered(s.worlds[b]) { EnteredHasFile(s.worlds[b]); }
      if i == a {
        WriterPasses(a, s.worlds[a], s.dir, s.alive, c, b);
      } else if i == b {
        ReaderEnters(b, s.worlds[b], s.dir, s.alive, c);
      }
    }
    hide Advance, LocalOk, HasFile, SeenBy, Entered, Inv, Named, ClosePoint;
  }

  lemma StepKeepsInv(s: State, i: World, c: Choice)
    requires Inv(s) && Enabled(s, Steps(i, c))
    ensures Inv(Apply(s, Steps(i, c)))
  {
    var t := Apply(s, Steps(i, c));
    assert SlotOk(s, i);
    forall a: World | a < |t.worlds| ensures SlotOk(t, a) { StepKeepsSlots(s, i, c, a); }
    forall a: World | a < |t.worlds| ensures FileOk(t, a) { StepKeepsFiles(s, i, c, a); }
    forall a: World, b: World | a < |t.worlds| && b < |t.worlds| ensures PairOk(t, a, b) { StepKeepsPairs(s, i, c, a, b); }
  }

  lemma StartOk(s: State)
    requires Start(s)
    ensures Inv(s)
  {
  }

  lemma {:induction false} InvHolds(s: State, events: seq<Event>)
    requires Start(s) && Valid(s, events)
    ensures Inv(After(s, events))
    decreases |events|
  {
    if events == [] {
      StartOk(s);
    } else {
      var e := events[|events| - 1];
      var p := After(s, events[..|events| - 1]);
      InvHolds(s, events[..|events| - 1]);
      match e
      case Calls(i, call) => CallKeepsInv(p, i, call);
      case Steps(i, c) => StepKeepsInv(p, i, c);
      case Dies(i) => DeathKeepsInv(p, i);
    }
  }
}
