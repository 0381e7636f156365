/**
 Worlds that injure a shared stack only while they hold the outage lock: the order in which a world may take, use and give
 back its outages, and what follows for all worlds of a run at every moment.
*/
module OutageSystem {
  import opened LockProtocol
  import LockGuarantees

  /** What an outage is in force on. */
  datatype Key = Service(name: string) | Connection(name: string) | Fault(name: string) | App(name: string) | Rotation

  /** One action of a world's outage code. */
  datatype Act =
    | Acquired            // `acquire` returned
    | AddKey(key: Key)    // the key joins `outages`
    | Hurt(key: Key)      // the stack is injured
    | Heal(key: Key)      // the injury is undone
    | Abandon(key: Key)   // the injury stays, and the world stops tracking it
    | DropKey(key: Key)   // the key leaves `outages`
    | ClearKeys           // `outages.clear()`
    | Released            // `release` is called
    | Shut                // `close` is called

  /** A world's side of the lock: whether it holds it, its `outages`, the injuries it tracks and those it abandoned. */
  datatype Client = Client(exclusive: bool, keys: set<Key>, harm: set<Key>, residue: set<Key>)

  const NewClient := Client(false, {}, {}, {})

  function Do(c: Client, a: Act): Client {
    match a
    case Acquired => c.(exclusive := true)
    case AddKey(k) => c.(keys := c.keys + {k})
    case Hurt(k) => c.(harm := c.harm + {k})
    case Heal(k) => c.(harm := c.harm - {k})
    case Abandon(k) => c.(harm := c.harm - {k}, residue := c.residue + (c.harm * {k}))
    case DropKey(k) => c.(keys := c.keys - {k})
    case ClearKeys => c.(keys := {})
    case Released => c.(exclusive := false)
    case Shut => c.(exclusive := false)
  }

  /** What each action leaves: every key of the outages, of the injuries and of what was given up, and the hold. */
  lemma ActsExactly(c: Client, a: Act, k: Key)
    ensures var d := Do(c, a);
            && (k in d.keys <==> a == AddKey(k) || (k in c.keys && a != DropKey(k) && a != ClearKeys))
            && (k in d.harm <==> a == Hurt(k) || (k in c.harm && a != Heal(k) && a != Abandon(k)))
            && (k in d.residue <==> k in c.residue || (a == Abandon(k) && k in c.harm))
            && (d.exclusive <==> a.Acquired? || (c.exclusive && !a.Released? && !a.Shut?))
  {
  }

  /** The discipline: injure only under the exclusive hold and a key, let go only of what is whole. */
  predicate Allowed(c: Client, a: Act) {
    match a
    case AddKey(k) => c.exclusive
    case Hurt(k) => c.exclusive && k in c.keys
    case DropKey(k) => k !in c.harm
    case ClearKeys => c.harm == {}
    case Released => c.keys == {}
    case Shut => c.harm == {}
    case _ => true
  }

  function Replay(c: Client, log: seq<Act>): Client {
    if log == [] then c else Do(Replay(c, log[..|log| - 1]), log[|log| - 1])
  }

  predicate Disciplined(c: Client, log: seq<Act>) {
    log == [] || (Disciplined(c, log[..|log| - 1]) && Allowed(Replay(c, log[..|log| - 1]), log[|log| - 1]))
  }

  /** Every tracked injury has its key in `outages`, and is under the exclusive hold. */
  predicate Contained(c: Client) {
    c.harm <= c.keys && (c.harm != {} ==> c.exclusive)
  }

  lemma {:induction false} DisciplineContains(c: Client, log: seq<Act>)
    requires Contained(c) && Disciplined(c, log)
    ensures Contained(Replay(c, log))
    decreases |log|
  {
    if log != [] { DisciplineContains(c, log[..|log| - 1]); }
  }

  // ---- Many worlds ----

  /** The lock run, and one client per world. */
  datatype System = System(run: State, clients: seq<Client>)

  datatype Move =
    | Turn(event: Event)                    // a file operation, a death, or a call of share, unshare or acquire
    | Client_(world: World, act: Act)       // an action of a world's outage code

  /** What the lock asks of a move: a hold is taken note of only after `acquire` has returned with it. */
  ghost predicate LockAllows(s: System, m: Move) {
    match m
    case Turn(e) => Enabled(s.run, e) && !(e.Calls? && (e.call.Release? || e.call.Close?))
    case Client_(i, a) =>
      && i < |s.run.worlds| && i < |s.clients| && i in s.run.alive
      && match a
         case Released => Enabled(s.run, Calls(i, Release))
         case Shut => Enabled(s.run, Calls(i, Close))
         case Acquired => s.run.worlds[i].at.Idle? && s.run.worlds[i].writing
         case _ => true
  }

  ghost predicate MayMove(s: System, m: Move) {
    LockAllows(s, m) && (m.Client_? ==> Allowed(s.clients[m.world], m.act))
  }

  function Moved(s: System, m: Move): System {
    match m
    case Turn(e) => s.(run := Apply(s.run, e))
    case Client_(i, a) =>
      if i >= |s.clients| then s
      else
        var next := s.(clients := s.clients[i := Do(s.clients[i], a)]);
        match a
        case Released => next.(run := Apply(s.run, Calls(i, Release)))
        case Shut => next.(run := Apply(s.run, Calls(i, Close)))
        case _ => next
  }

  function SystemAfter(s: System, moves: seq<Move>): System {
    if moves == [] then s else Moved(SystemAfter(s, moves[..|moves| - 1]), moves[|moves| - 1])
  }

  ghost predicate ValidMoves(s: System, moves: seq<Move>) {
    moves == [] ||
    (ValidMoves(s, moves[..|moves| - 1]) && MayMove(SystemAfter(s, moves[..|moves| - 1]), moves[|moves| - 1]))
  }

  /** Worlds may start with keys left over from an earlier life, but with nothing injured and no hold. */
  ghost predicate SystemStart(s: System) {
    && Start(s.run)
    && |s.clients| == |s.run.worlds|
    && forall i :: 0 <= i < |s.clients| ==> s.clients[i].harm == {} && !s.clients[i].exclusive
  }

  ghost predicate Agrees(s: System, i: World)
    requires i < |s.clients| == |s.run.worlds|
  {
    && Contained(s.clients[i])
    && (i in s.run.alive && s.clients[i].exclusive ==> HoldsExclusive(s.run.worlds[i]))
  }

  ghost predicate SystemInv(s: System) {
    && |s.clients| == |s.run.worlds|
    && Inv(s.run)
    && forall i: World :: i < |s.clients| ==> Agrees(s, i)
  }

  lemma HoldKeptByOthers(l: Local, me: World, d: Directory, alive: set<World>, c: Choice, call: Call)
    requires HoldsExclusive(l) && LocalOk(l)
    ensures HoldsExclusive(Advance(me, l, d, alive, c).0)
    ensures MayCall(l, call) && !call.Release? && !call.Close? ==> HoldsExclusive(Begin(l, call))
  {
  }

  lemma MoveKeepsInv(s: System, m: Move)
    requires SystemInv(s) && MayMove(s, m)
    ensures SystemInv(Moved(s, m))
  {
    var t := Moved(s, m);
    match m {
      case Turn(e) =>
        match e {
          case Calls(i, call) => CallKeepsInv(s.run, i, call);
          case Steps(i, c) => StepKeepsInv(s.run, i, c);
          case Dies(i) => DeathKeepsInv(s.run, i);
        }
        forall i: World | i < |t.clients| ensures Agrees(t, i) {
          assert Agrees(s, i) && SlotOk(s.run, i);
          if i == e.world && HoldsExclusive(s.run.worlds[i]) {
            HoldKeptByOthers(s.run.worlds[i], i, s.run.dir, s.run.alive,
                             if e.Steps? then e.choice else Choice(true, []), if e.Calls? then e.call else Share);
          }
        }
      case Client_(w, a) =>
        if a.Released? { CallKeepsInv(s.run, w, Release); }
        if a.Shut? { CallKeepsInv(s.run, w, Close); }
        forall i: World | i < |t.clients| ensures Agrees(t, i) {
          assert Agrees(s, i);
        }
    }
  }

  lemma {:induction false} SystemInvHolds(s: System, moves: seq<Move>)
    requires SystemStart(s) && ValidMoves(s, moves)
    ensures SystemInv(SystemAfter(s, moves))
    decreases |moves|
  {
    if moves == [] {
      StartOk(s.run);
    } else {
      SystemInvHolds(s, moves[..|moves| - 1]);
      MoveKeepsInv(SystemAfter(s, moves[..|moves| - 1]), moves[|moves| - 1]);
    }
  }

  /**
   Outage safety: in every interleaving of disciplined worlds, while a live world has injured anything, the key is in its
   `outages`, it holds the lock exclusively, and no other live world runs a test, holds the lock or has injured anything.
  */
  lemma NobodyTestsDuringAnOutage(s: System, moves: seq<Move>, a: World, b: World)
    requires SystemStart(s) && ValidMoves(s, moves) && a < |s.clients| && b < |s.clients| && a != b
    requires |SystemAfter(s, moves).clients| == |SystemAfter(s, moves).run.worlds| == |s.clients|
    requires a in SystemAfter(s, moves).run.alive && b in SystemAfter(s, moves).run.alive
    requires SystemAfter(s, moves).clients[a].harm != {}
    ensures SystemAfter(s, moves).clients[a].harm <= SystemAfter(s, moves).clients[a].keys
    ensures HoldsExclusive(SystemAfter(s, moves).run.worlds[a])
    ensures !HoldsShared(SystemAfter(s, moves).run.worlds[b])
    ensures SystemAfter(s, moves).clients[b].harm == {} && !SystemAfter(s, moves).clients[b].exclusive
  {
    SystemInvHolds(s, moves);
    var t := SystemAfter(s, moves);
    assert Agrees(t, a) && Agrees(t, b);
    LockGuarantees.ExclusionNow(t.run, a, b);
  }

  // ---- From the logs of worlds to the moves of the system ----

  /** The actions of one world, in the order of the moves. */
  function Acts(moves: seq<Move>, i: World): seq<Act> {
    if moves == [] then []
    else
      var last := moves[|moves| - 1];
      Acts(moves[..|moves| - 1], i) + if last.Client_? && last.world == i then [last.act] else []
  }

  /** The lock allows every move when it happens. */
  ghost predicate LockValid(s: System, moves: seq<Move>) {
    moves == [] ||
    (LockValid(s, moves[..|moves| - 1]) && LockAllows(SystemAfter(s, moves[..|moves| - 1]), moves[|moves| - 1]))
  }

  lemma ActsLast(moves: seq<Move>, i: World)
    requires moves != []
    ensures var front, last := Acts(moves[..|moves| - 1], i), moves[|moves| - 1];
            if last.Client_? && last.world == i then Acts(moves, i) == front + [last.act] && Acts(moves, i)[..|front|] == front
            else Acts(moves, i) == front
  {
  }

  lemma MovedClient(s: System, m: Move, i: World)
    requires i < |s.clients|
    ensures |Moved(s, m).clients| == |s.clients|
    ensures Moved(s, m).clients[i] == if m.Client_? && m.world == i then Do(s.clients[i], m.act) else s.clients[i]
  {
  }

  /** Whatever the interleaving, a client is what its own actions make of it. */
  lemma {:induction false} ClientIsReplay(s: System, moves: seq<Move>, i: World)
    requires i < |s.clients|
    ensures |SystemAfter(s, moves).clients| == |s.clients|
    ensures SystemAfter(s, moves).clients[i] == Replay(s.clients[i], Acts(moves, i))
    decreases |moves|
  {
    if moves != [] {
      var front, last := moves[..|moves| - 1], moves[|moves| - 1];
      hide Moved, Do, Acts;
      ClientIsReplay(s, front, i);
      MovedClient(SystemAfter(s, front), last, i);
      ActsLast(moves, i);
    }
  }

  /** Any interleaving that the lock allows of worlds whose logs are disciplined is a run of the system. */
  lemma {:induction false} LogsAreMoves(s: System, moves: seq<Move>)
    requires LockValid(s, moves) && forall i: World :: i < |s.clients| ==> Disciplined(s.clients[i], Acts(moves, i))
    ensures ValidMoves(s, moves)
    decreases |moves|
  {
    if moves != [] {
      hide Acts, LockAllows, Allowed, Moved;
      var front, last := moves[..|moves| - 1], moves[|moves| - 1];
      forall i: World | i < |s.clients| ensures Disciplined(s.clients[i], Acts(front, i)) {
        ActsLast(moves, i);
      }
      LogsAreMoves(s, front);
      if last.Client_? {
        var i := last.world;
        if i < |s.clients| {
          ClientIsReplay(s, front, i);
          ActsLast(moves, i);
        } else if s.clients != [] {
          ClientIsReplay(s, front, 0);
        } else {
          NoClients(s, front);
        }
      }
    }
  }

  lemma {:induction false} NoClients(s: System, moves: seq<Move>)
    requires s.clients == []
    ensures SystemAfter(s, moves).clients == []
    decreases |moves|
  {
    if moves != [] { NoClients(s, moves[..|moves| - 1]); }
  }

  // ---- The system is a run of the lock ----

  /** What a move does to the lock. */
  function LockEvent(m: Move): seq<Event> {
    match m
    case Turn(e) => [e]
    case Client_(i, Released) => [Calls(i, Release)]
    case Client_(i, Shut) => [Calls(i, Close)]
    case _ => []
  }

  function LockEvents(moves: seq<Move>): seq<Event> {
    if moves == [] then [] else LockEvents(moves[..|moves| - 1]) + LockEvent(moves[|moves| - 1])
  }

  lemma MoveRunsTheLock(s: System, m: Move)
    requires MayMove(s, m)
    ensures LockEvent(m) == [] ==> Moved(s, m).run == s.run
    ensures LockEvent(m) != [] ==>
              LockEvent(m) == [LockEvent(m)[0]] && Enabled(s.run, LockEvent(m)[0]) && Moved(s, m).run == Apply(s.run, LockEvent(m)[0])
  {
    hide Apply;
  }

  /** The lock of the system goes through exactly the events of its turns, releases and closes, all of them possible. */
  lemma {:induction false} SystemRunsTheLock(s: System, moves: seq<Move>)
    requires ValidMoves(s, moves)
    ensures SystemAfter(s, moves).run == After(s.run, LockEvents(moves)) && Valid(s.run, LockEvents(moves))
    decreases |moves|
  {
    hide Apply, Enabled, MayMove, Moved, LockEvent;
    if moves != [] {
      var front, last := moves[..|moves| - 1], moves[|moves| - 1];
      SystemRunsTheLock(s, front);
      MoveRunsTheLock(SystemAfter(s, front), last);
      var before, e := LockEvents(front), LockEvent(last);
      if e == [] {
        assert before + [] == before;
      } else {
        assert LockEvents(moves) == before + [e[0]];
        assert (before + [e[0]])[..|before|] == before;
      }
    }
  }

  /** A world that lets go of its last outage, or shuts, holds nothing exclusively from that moment. */
  lemma LettingGo(s: System, i: World)
    requires i < |s.run.worlds|
    ensures MayMove(s, Client_(i, Released)) ==> !HoldsExclusive(Moved(s, Client_(i, Released)).run.worlds[i])
    ensures MayMove(s, Client_(i, Shut)) ==>
              var l := Moved(s, Client_(i, Shut)).run.worlds[i];
              l.closed && !HoldsExclusive(l) && !HoldsShared(l)
  {
  }
}
