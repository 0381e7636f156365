/**
 The runtime of one spec file: the outages it injects, the write faults it has to clean up, and its stop. Every call to the
 stack may fail, before or after it took effect.
*/
module Worlds {
  import opened LockProtocol
  import opened OutageSystem

  /** How one call to the stack went. */
  datatype Effect = Done | FailedBefore | FailedAfter

  /** This world's lock object, if it has one. */
  datatype Lock = NoLock | Open(exclusive: bool, sharing: bool)

  datatype FaultEntry = FaultEntry(connection: string, table: string)

  /** What a spec does with the outage handles, with the outcome of every call to the stack. */
  datatype Op =
    | Cut(service: string, cut: Effect)                   // `cut` and `latency` of a proxy
    | Restore(service: string, restore: Effect)
    | During(service: string, cut: Effect, body: seq<Op>, restore: Effect)
    | CutConnection(connection: string, cut: Effect)
    | RestoreConnection(connection: string, restore: Effect)
    | DuringConnection(connection: string, cut: Effect, body: seq<Op>, restore: Effect)
    | PrepareFault(fault: string, connection: string, table: string)
    | InstallFault(fault: string, install: Effect, captures: bool)
    | RestoreFault(fault: string, restore: Effect)
    | AppDuring(app: string, close: Effect, body: seq<Op>, boot: Effect)
    | RotateSecret(rotate: Effect)

  // ---- What the operations of a spec come to ----

  /** A world as a spec can tell: its boot, its hold, its outages and custody, and where that leaves the stack. */
  datatype Snap = Snap(booted: bool, open: bool, exclusive: bool, outages: set<Key>, down: set<string>,
                       faults: map<string, FaultEntry>, handles: map<string, bool>, harm: set<Key>, residue: set<Key>)

  /** The hold is taken, then the key. */
  function Taken(w: Snap, key: Key): Snap {
    w.(open := true, exclusive := true, outages := w.outages + {key})
  }

  /** The key goes, and with the last key the hold. */
  function Over(w: Snap, key: Key): Snap {
    w.(outages := w.outages - {key}, exclusive := w.exclusive && w.outages - {key} != {})
  }

  function Hit(w: Snap, key: Key, effect: Effect): Snap {
    Taken(w, key).(harm := w.harm + if effect.FailedBefore? then {} else {key})
  }

  function Fixed(w: Snap, key: Key, effect: Effect): Snap {
    var q := w.(harm := if effect.FailedBefore? then w.harm else w.harm - {key});
    if effect.Done? then Over(q, key) else q
  }

  function CutOff(w: Snap, connection: string, effect: Effect): Snap {
    Hit(w, Connection(connection), effect).(down := w.down + {connection})
  }

  function LetIn(w: Snap, connection: string, effect: Effect): Snap {
    Fixed(w, Connection(connection), effect).(down := if effect.Done? then w.down - {connection} else w.down)
  }

  /** The outage of an app ends, whatever state the app is in; one that is down is not tracked any more. */
  function AppOver(w: Snap, app: string, back: bool): Snap {
    Over(w.(harm := w.harm - {App(app)}, residue := w.residue + if back then {} else w.harm * {App(app)}), App(app))
  }

  /** One operation, and whether it did not throw. */
  function Outcome(proxies: set<string>, w: Snap, op: Op): (Snap, bool)
    decreases op
  {
    match op
    case Cut(service, cut) =>
      if w.booted && service in proxies then (Hit(w, Service(service), cut), cut.Done?) else (w, false)
    case Restore(service, restore) =>
      if service in proxies then (Fixed(w, Service(service), restore), restore.Done?) else (w, false)
    case During(service, cut, body, restore) =>
      if !w.booted || service !in proxies then (w, false)
      else if !cut.Done? then (Hit(w, Service(service), cut), false)
      else
        var (inside, went) := Outcomes(proxies, Hit(w, Service(service), cut), body);
        (Fixed(inside, Service(service), restore), went && restore.Done?)
    case CutConnection(connection, cut) =>
      if w.booted then (CutOff(w, connection, cut), cut.Done?) else (w, false)
    case RestoreConnection(connection, restore) => (LetIn(w, connection, restore), restore.Done?)
    case DuringConnection(connection, cut, body, restore) =>
      if !w.booted then (w, false)
      else if !cut.Done? then (CutOff(w, connection, cut), false)
      else
        var (inside, went) := Outcomes(proxies, CutOff(w, connection, cut), body);
        (LetIn(inside, connection, restore), went && restore.Done?)
    case PrepareFault(fault, connection, table) =>
      if w.booted && fault !in w.handles && FaultEntry(connection, table) !in w.faults.Values
      then (w.(faults := w.faults[fault := FaultEntry(connection, table)], handles := w.handles[fault := false]), true)
      else (w, false)
    case InstallFault(fault, install, captures) =>
      if !w.booted || fault !in w.handles then (w, false)
      else if w.handles[fault] then (Taken(w, Fault(fault)), false)
      else
        (Taken(w, Fault(fault)).(harm := w.harm + {Fault(fault)},
                                 handles := if captures || !install.FailedBefore? then w.handles[fault := true] else w.handles),
         install.Done?)
    case RestoreFault(fault, restore) =>
      if fault !in w.handles then (w, false)
      else
        var t := Taken(w, Fault(fault));
        if restore.Done? then (Over(t.(faults := w.faults - {fault}, harm := w.harm - {Fault(fault)}), Fault(fault)), true) else (t, false)
    case AppDuring(app, close, body, boot) =>
      if !w.booted then (w, false)
      else if !close.Done? then (AppOver(Hit(w, App(app), close), app, false), false)
      else
        var (inside, went) := Outcomes(proxies, Hit(w, App(app), close), body);
        (AppOver(inside, app, boot.Done?), went && boot.Done?)
    case RotateSecret(rotate) => if w.booted then (Hit(w, Rotation, rotate), rotate.Done?) else (w, false)
  }

  /** Operation after operation, until one throws. */
  function Outcomes(proxies: set<string>, w: Snap, ops: seq<Op>): (Snap, bool)
    decreases ops
  {
    if ops == [] then (w, true)
    else
      var (next, ok) := Outcome(proxies, w, ops[0]);
      if ok then Outcomes(proxies, next, ops[1..]) else (next, false)
  }

  /** What every cut has in common: the hold and the key whatever the outcome, the injury unless it failed before it took effect. */
  predicate InForce(w: Snap, after: Snap, key: Key, effect: Effect) {
    && after.open && after.exclusive && after.outages == w.outages + {key}
    && after.harm == w.harm + (if effect.FailedBefore? then {} else {key})
    && after.residue == w.residue && after.faults == w.faults && after.booted == w.booted
  }

  /** Cuts, delays and rotations take the hold and their key before anything else, and a handle of a world not booted does nothing. */
  lemma CutsTakeTheHold(proxies: set<string>, w: Snap, service: string, connection: string, effect: Effect)
    ensures var (cut, ok) := Outcome(proxies, w, Cut(service, effect));
            if w.booted && service in proxies
            then InForce(w, cut, Service(service), effect) && cut.down == w.down && ok == effect.Done? else cut == w && !ok
    ensures var (cut, ok) := Outcome(proxies, w, CutConnection(connection, effect));
            if w.booted then InForce(w, cut, Connection(connection), effect) && cut.down == w.down + {connection} && ok == effect.Done?
            else cut == w && !ok
    ensures var (cut, ok) := Outcome(proxies, w, RotateSecret(effect));
            if w.booted then InForce(w, cut, Rotation, effect) && cut.down == w.down && ok == effect.Done? else cut == w && !ok
  {
    hide Outcomes;
  }

  /** What every restore has in common: a done one ends its own outage, and the hold with the last; a failing one keeps both. */
  predicate Undone(w: Snap, after: Snap, key: Key, effect: Effect) {
    && after.outages == (if effect.Done? then w.outages - {key} else w.outages)
    && after.exclusive == (w.exclusive && (effect.Done? ==> w.outages - {key} != {}))
    && after.harm == (if effect.FailedBefore? then w.harm else w.harm - {key})
    && after.residue == w.residue && after.faults == w.faults && after.booted == w.booted && after.open == w.open
  }

  lemma RestoresEndTheirOutage(proxies: set<string>, w: Snap, service: string, connection: string, effect: Effect)
    ensures var (r, ok) := Outcome(proxies, w, Restore(service, effect));
            if service in proxies then Undone(w, r, Service(service), effect) && r.down == w.down && ok == effect.Done? else r == w && !ok
    ensures var (r, ok) := Outcome(proxies, w, RestoreConnection(connection, effect));
            && Undone(w, r, Connection(connection), effect) && ok == effect.Done?
            && r.down == if effect.Done? then w.down - {connection} else w.down
  {
    hide Outcomes;
  }

  /** A write fault is prepared, installed and restored under its own key; custody ends with a done restore only. */
  lemma FaultsHaveCustody(proxies: set<string>, w: Snap, f: string, connection: string, table: string, effect: Effect, captures: bool)
    ensures var (p, ok) := Outcome(proxies, w, PrepareFault(f, connection, table));
            && ok == (w.booted && f !in w.handles && forall g :: g in w.faults ==> w.faults[g] != FaultEntry(connection, table))
            && (ok ==> f in p.faults && p.faults[f] == FaultEntry(connection, table) && p.handles == w.handles[f := false])
            && (!ok ==> p == w) && p.outages == w.outages && p.harm == w.harm && p.exclusive == w.exclusive
    ensures var (i, ok) := Outcome(proxies, w, InstallFault(f, effect, captures));
            if !w.booted || f !in w.handles then i == w && !ok
            else
              && i.exclusive && i.outages == w.outages + {Fault(f)} && i.faults == w.faults
              && ok == (effect.Done? && !w.handles[f]) && (Fault(f) in i.harm <==> Fault(f) in w.harm || !w.handles[f])
              && (f in i.handles && (i.handles[f] <==> w.handles[f] || captures || !effect.FailedBefore?))
    ensures var (r, ok) := Outcome(proxies, w, RestoreFault(f, effect));
            if f !in w.handles then r == w && !ok
            else
              && ok == effect.Done? && r.handles == w.handles
              && (if ok then f !in r.faults && Fault(f) !in r.harm && Fault(f) !in r.outages
                  else r.faults == w.faults && r.harm == w.harm && Fault(f) in r.outages && r.exclusive)
  {
  }

  /** `during` is a cut, then its body, then a restore whatever the body did; a cut that fails ends it. */
  lemma DuringIsABracket(proxies: set<string>, w: Snap, name: string, cut: Effect, body: seq<Op>, restore: Effect)
    ensures var (hit, down) := Outcome(proxies, w, Cut(name, cut));
            var (inside, went) := Outcomes(proxies, hit, body);
            var (after, up) := Outcome(proxies, inside, Restore(name, restore));
            Outcome(proxies, w, During(name, cut, body, restore)) == if down then (after, went && up) else (hit, false)
    ensures var (hit, down) := Outcome(proxies, w, CutConnection(name, cut));
            var (inside, went) := Outcomes(proxies, hit, body);
            var (after, up) := Outcome(proxies, inside, RestoreConnection(name, restore));
            Outcome(proxies, w, DuringConnection(name, cut, body, restore)) == if down then (after, went && up) else (hit, false)
  {
  }

  /** A `during` that does not throw leaves neither its outage nor its injury; the outage of an app ends in any case. */
  lemma DuringLeavesNoTrace(proxies: set<string>, w: Snap, op: Op)
    ensures var (after, ok) := Outcome(proxies, w, op);
            && (op.During? && ok ==> Service(op.service) !in after.outages && Service(op.service) !in after.harm)
            && (op.DuringConnection? && ok ==> Connection(op.connection) !in after.outages && Connection(op.connection) !in after.harm)
            && (op.AppDuring? && w.booted ==> App(op.app) !in after.outages && App(op.app) !in after.harm)
            && (op.AppDuring? && !w.booted ==> after == w && !ok)
  {
  }

  /** While an app is down its body runs under the hold and the app's key; a failing boot leaves the app down and untracked. */
  lemma AppIsDownMeanwhile(proxies: set<string>, w: Snap, app: string, body: seq<Op>, boot: Effect)
    requires w.booted
    ensures var down := w.(open := true, exclusive := true, outages := w.outages + {App(app)}, harm := w.harm + {App(app)});
            var (inside, went) := Outcomes(proxies, down, body);
            var (after, ok) := Outcome(proxies, w, AppDuring(app, Done, body, boot));
            && ok == (went && boot.Done?) && after.outages == inside.outages - {App(app)} && after.harm == inside.harm - {App(app)}
            && (boot.Done? ==> after.residue == inside.residue)
            && (!boot.Done? && App(app) in inside.harm ==> App(app) in after.residue)
            && after.exclusive == (inside.exclusive && inside.outages - {App(app)} != {})
  {
  }

  /** A spec that throws stops there; otherwise it goes on where it is. */
  lemma {:induction false} SpecsGoOn(proxies: set<string>, w: Snap, first: seq<Op>, second: seq<Op>)
    ensures var (middle, ok) := Outcomes(proxies, w, first);
            Outcomes(proxies, w, first + second) == if ok then Outcomes(proxies, middle, second) else (middle, false)
    ensures forall op :: Outcomes(proxies, w, [op]) == Outcome(proxies, w, op)
    decreases |first|
  {
    hide Outcome;
    if first == [] {
      assert first + second == second;
    } else {
      assert (first + second)[1..] == first[1..] + second && (first + second)[0] == first[0];
      SpecsGoOn(proxies, Outcome(proxies, w, first[0]).0, first[1..], second);
    }
    forall op ensures Outcomes(proxies, w, [op]) == Outcome(proxies, w, op) {
      assert [op][1..] == [];
    }
  }

  /** A failing stop of an app leaves no key, and tracks the app no more. */
  lemma AppNotStopped(w: Snap, app: string, close: Effect)
    ensures var t, key := AppOver(Hit(w, App(app), close), app, false), App(app);
            && t.outages == w.outages - {key} && t.harm == w.harm - {key} && t.open && t.exclusive == (w.outages - {key} != {})
            && t.residue == w.residue + (if !close.FailedBefore? || key in w.harm then {key} else {})
  {
    var key := App(app);
    assert w.outages + {key} - {key} == w.outages - {key};
    assert w.harm + {key} - {key} == w.harm - {key} && w.harm + {} == w.harm;
  }

  class World {
    /** The services behind a proxy of this run. */
    const proxies: set<string>
    var booted: bool
    var lock: Lock
    var outages: set<Key>
    var downConnections: set<string>
    var writeFaults: map<string, FaultEntry>
    /** Every fault handle a spec was given, and whether it has captured its table: a spec keeps a handle past its custody. */
    var handles: map<string, bool>
    /** What the outage code did so far, and where that leaves the stack. */
    ghost var log: seq<Act>
    ghost var client: Client
    /** Keys that outlived the lock they were taken under. */
    ghost var stale: set<Key>
    /** The faults whose installation was attempted when custody was already over and nothing captured. */
    ghost var escaped: set<string>

    constructor (proxies: set<string>)
      ensures Valid() && this.proxies == proxies && !booted && lock == NoLock && outages == {} && downConnections == {}
      ensures writeFaults == map[] && handles == map[] && client == NewClient && stale == {} && escaped == {}
    {
      this.proxies := proxies;
      booted := false;
      lock := NoLock;
      outages := {};
      downConnections := {};
      writeFaults := map[];
      handles := map[];
      log := [];
      client := NewClient;
      stale := {};
      escaped := {};
    }

    /** The world as a spec can tell. */
    ghost function View(): Snap
      reads this
    {
      Snap(booted, lock.Open?, Exclusive(), outages, downConnections, writeFaults, handles, client.harm, client.residue)
    }

    predicate Exclusive()
      reads this
    {
      lock.Open? && lock.exclusive
    }

    /**
     Everything this world ever did was disciplined, so its injuries are contained; outages without the exclusive hold are
     only ever stale ones; an attempted fault is in custody unless it escaped; custody keeps the lock open, and what a handle
     captured in custody is tracked as an injury.
    */
    ghost predicate Valid()
      reads this
    {
      && Disciplined(NewClient, log)
      && client == Replay(NewClient, log)
      && client.exclusive == Exclusive()
      && client.keys == outages
      && Contained(client)
      && (!Exclusive() ==> outages <= stale)
      && (forall f: string :: Fault(f) in client.harm ==> f in handles && (f in writeFaults || f in escaped))
      && (forall f :: f in writeFaults ==> f in handles && (handles[f] ==> Fault(f) in client.harm))
      && (writeFaults != map[] || booted ==> lock.Open?)
    }

    /** Custody covers every fault that may be installed. */
    ghost predicate Covered()
      reads this
    {
      forall f: string :: Fault(f) in client.harm ==> f in writeFaults
    }

    /** Neither the boot, nor what is down, nor custody changed; the history grew. */
    twostate predicate OnlyOutages()
      reads this
    {
      && booted == old(booted) && downConnections == old(downConnections) && writeFaults == old(writeFaults)
      && handles == old(handles) && stale == old(stale) && escaped == old(escaped) && old(log) <= log
    }

    /** Nothing was abandoned but apps that did not come back. */
    twostate predicate OnlyAppsAbandoned()
      reads this
    {
      old(client.residue) <= client.residue && forall k :: k in client.residue - old(client.residue) ==> k.App?
    }

    /** Nothing changed. */
    twostate predicate Same()
      reads this
    {
      OnlyOutages() && lock == old(lock) && outages == old(outages) && client == old(client)
    }

    ghost method Record(a: Act)
      requires Disciplined(NewClient, log) && client == Replay(NewClient, log) && Allowed(client, a)
      modifies `log, `client
      ensures old(log) <= log && client == Do(old(client), a)
      ensures Disciplined(NewClient, log) && client == Replay(NewClient, log)
    {
      var before := log;
      log := log + [a];
      assert log[..|log| - 1] == before;
      client := Do(client, a);
    }

    /** The stack is whole again at these keys. */
    ghost method HealAll(keys: set<Key>)
      requires Valid() && forall f :: f in writeFaults ==> Fault(f) !in keys
      modifies `log, `client
      ensures Valid() && old(log) <= log && client == old(client).(harm := old(client.harm) - keys)
    {
      if keys != {} {
        var k :| k in keys;
        Record(Heal(k));
        HealAll(keys - {k});
      }
    }

    /** The stack stays injured at these keys, and the code stops tracking it. */
    ghost method AbandonAll(keys: set<Key>)
      requires Valid() && forall f :: f in writeFaults ==> Fault(f) !in keys
      modifies `log, `client
      ensures Valid() && old(log) <= log
      ensures client == old(client).(harm := old(client.harm) - keys, residue := old(client.residue) + old(client.harm) * keys)
    {
      if keys != {} {
        var k :| k in keys;
        Record(Abandon(k));
        AbandonAll(keys - {k});
      }
    }

    // ---- beginOutage, endOutage ----

    /** Waits for the exclusive hold (re-entrant), then notes the key. */
    method BeginOutage(key: Key)
      requires Valid()
      modifies this
      ensures Valid() && OnlyOutages() && Exclusive() && outages == old(outages) + {key}
      ensures client.harm == old(client.harm) && client.residue == old(client.residue)
    {
      lock := Open(true, lock.Open? && lock.sharing);
      Record(Acquired);
      outages := outages + {key};
      Record(AddKey(key));
    }

    /** One outage is over; the exclusive hold ends with the last one. */
    method EndOutage(key: Key)
      requires Valid() && key !in client.harm
      modifies this
      ensures Valid() && OnlyOutages() && outages == old(outages) - {key}
      ensures client.harm == old(client.harm) && client.residue == old(client.residue)
      ensures lock.Open? == old(lock.Open?) && Exclusive() == (old(Exclusive()) && outages != {})
    {
      outages := outages - {key};
      Record(DropKey(key));
      if outages == {} && lock.Open? {
        lock := lock.(exclusive := false);
        Record(Released);
      }
    }

    /** Injures the stack under a key. An attempted installation of a fault counts as an injury: its outcome may be unknown. */
    method Injure(key: Key, effect: Effect) returns (ok: bool)
      requires Valid() && (key.Fault? ==> key.name in handles && (key.name in writeFaults || key.name in escaped))
      modifies this
      ensures Valid() && OnlyOutages() && ok == effect.Done? && Exclusive() && outages == old(outages) + {key}
      ensures client.harm == old(client.harm) + (if effect.FailedBefore? && !key.Fault? then {} else {key})
      ensures client.residue == old(client.residue)
    {
      BeginOutage(key);
      if !effect.FailedBefore? || key.Fault? {
        Record(Hurt(key));
      }
      ok := effect.Done?;
    }

    /** Undoes an injury, then ends its outage; a failure keeps the key, whatever the call had already done. */
    method Mend(key: Key, effect: Effect) returns (ok: bool)
      requires Valid() && !key.Fault?
      modifies this
      ensures Valid() && OnlyOutages() && ok == effect.Done?
      ensures outages == if ok then old(outages) - {key} else old(outages)
      ensures client.harm == if effect.FailedBefore? then old(client.harm) else old(client.harm) - {key}
      ensures client.residue == old(client.residue) && lock.Open? == old(lock.Open?)
      ensures Exclusive() == (old(Exclusive()) && !(ok && outages == {}))
    {
      if !effect.FailedBefore? {
        Record(Heal(key));
      }
      ok := effect.Done?;
      if ok {
        EndOutage(key);
      }
    }

    // ---- The handles ----

    /** `cut` and `latency` of a proxied service. */
    method CutProxy(service: string, effect: Effect) returns (ok: bool)
      requires Valid()
      modifies this
      ensures Valid() && OnlyOutages()
      ensures !old(booted) || service !in proxies ==> !ok && Same()
      ensures old(booted) && service in proxies ==>
                && ok == effect.Done? && Exclusive() && outages == old(outages) + {Service(service)}
                && client.harm == old(client.harm) + (if effect.FailedBefore? then {} else {Service(service)})
                && client.residue == old(client.residue)
    {
      ok := false;
      if booted && service in proxies {
        ok := Injure(Service(service), effect);
      }
    }

    /** `cut` of one connection, remembered for the stop even when it fails. */
    method CutOne(connection: string, effect: Effect) returns (ok: bool)
      requires Valid()
      modifies this
      ensures Valid() && old(log) <= log && booted == old(booted) && stale == old(stale) && writeFaults == old(writeFaults)
      ensures handles == old(handles) && escaped == old(escaped)
      ensures !old(booted) ==> !ok && Same()
      ensures old(booted) ==>
                && ok == effect.Done? && Exclusive() && outages == old(outages) + {Connection(connection)}
                && downConnections == old(downConnections) + {connection}
                && client.harm == old(client.harm) + (if effect.FailedBefore? then {} else {Connection(connection)})
                && client.residue == old(client.residue)
    {
      ok := false;
      if booted {
        ok := Injure(Connection(connection), effect);
        downConnections := downConnections + {connection};
      }
    }

    method RestoreOne(connection: string, effect: Effect) returns (ok: bool)
      requires Valid()
      modifies this
      ensures Valid() && old(log) <= log && booted == old(booted) && stale == old(stale) && writeFaults == old(writeFaults)
      ensures handles == old(handles) && escaped == old(escaped)
      ensures ok == effect.Done?
      ensures downConnections == if ok then old(downConnections) - {connection} else old(downConnections)
      ensures outages == if ok then old(outages) - {Connection(connection)} else old(outages)
      ensures client.harm == if effect.FailedBefore? then old(client.harm) else old(client.harm) - {Connection(connection)}
      ensures client.residue == old(client.residue) && lock.Open? == old(lock.Open?)
      ensures Exclusive() == (old(Exclusive()) && !(ok && outages == {}))
    {
      ok := Mend(Connection(connection), effect);
      if ok { downConnections := downConnections - {connection}; }
    }

    /** `writeFault`: a new handle (its generated name is new), refused while the table has another one in custody. */
    method PrepareWriteFault(fault: string, connection: string, table: string) returns (ok: bool)
      requires Valid()
      modifies this
      ensures Valid() && ok == (old(booted) && fault !in old(handles) && FaultEntry(connection, table) !in old(writeFaults).Values)
      ensures writeFaults == if ok then old(writeFaults)[fault := FaultEntry(connection, table)] else old(writeFaults)
      ensures handles == if ok then old(handles)[fault := false] else old(handles)
      ensures lock == old(lock) && outages == old(outages) && client == old(client) && booted == old(booted)
      ensures stale == old(stale) && escaped == old(escaped) && log == old(log) && downConnections == old(downConnections)
    {
      ok := booted && fault !in handles && FaultEntry(connection, table) !in writeFaults.Values;
      if ok {
        writeFaults := writeFaults[fault := FaultEntry(connection, table)];
        handles := handles[fault := false];
      }
    }

    /**
     `install`. Its owner refuses exactly a handle that has captured its table before, after the key was noted; whether the handle
     is still in custody is not asked. A failing installation may have captured the table or not (`captures`). An attempted
     installation stays covered by custody if and only if the handle is in custody or is refused.
    */
    method InstallWriteFault(fault: string, effect: Effect, captures: bool) returns (ok: bool)
      requires Valid() && fault in handles
      modifies this
      ensures Valid() && old(log) <= log && booted == old(booted) && stale == old(stale) && downConnections == old(downConnections)
      ensures writeFaults == old(writeFaults) && client.residue == old(client.residue)
      ensures !old(booted) ==> !ok && Same()
      ensures old(booted) ==> Exclusive() && outages == old(outages) + {Fault(fault)} && ok == (effect.Done? && !old(handles[fault]))
      ensures old(booted) ==> client.harm == old(client.harm) + (if old(handles[fault]) then {} else {Fault(fault)})
      ensures handles == if old(booted) && (captures || !effect.FailedBefore?) then old(handles)[fault := true] else old(handles)
      ensures escaped == old(escaped) + (if old(booted) && !old(handles[fault]) && fault !in writeFaults then {fault} else {})
      ensures old(booted) && old(Covered()) ==> (Covered() <==> fault in old(writeFaults) || old(handles[fault]))
    {
      ok := false;
      if booted {
        if handles[fault] {
          BeginOutage(Fault(fault));
        } else {
          if fault !in writeFaults { escaped := escaped + {fault}; }
          ok := Injure(Fault(fault), effect);
          if captures || !effect.FailedBefore? { handles := handles[fault := true]; }
        }
      }
    }

    /** The part of a fault's `restore` after the lock and the key are taken: custody ends only with a confirmed restore. */
    method FinishRestore(fault: string, effect: Effect) returns (ok: bool)
      requires Valid() && Exclusive() && Fault(fault) in outages
      modifies this
      ensures Valid() && ok == effect.Done? && lock.Open?
      ensures writeFaults == if ok then old(writeFaults) - {fault} else old(writeFaults)
      ensures outages == if ok then old(outages) - {Fault(fault)} else old(outages)
      ensures client.harm == if ok then old(client.harm) - {Fault(fault)} else old(client.harm)
      ensures client.residue == old(client.residue) && Exclusive() == (outages != {})
      ensures booted == old(booted) && stale == old(stale) && downConnections == old(downConnections) && old(log) <= log
      ensures handles == old(handles) && escaped == old(escaped)
    {
      ok := effect.Done?;
      if ok {
        Record(Heal(Fault(fault)));
        writeFaults := writeFaults - {fault};
        EndOutage(Fault(fault));
      }
    }

    method RestoreWriteFault(fault: string, effect: Effect) returns (ok: bool)
      requires Valid()
      modifies this
      ensures Valid() && ok == effect.Done? && lock.Open?
      ensures writeFaults == if ok then old(writeFaults) - {fault} else old(writeFaults)
      ensures outages == if ok then old(outages) - {Fault(fault)} else old(outages) + {Fault(fault)}
      ensures client.harm == if ok then old(client.harm) - {Fault(fault)} else old(client.harm)
      ensures client.residue == old(client.residue) && Exclusive() == (outages != {})
      ensures booted == old(booted) && stale == old(stale) && downConnections == old(downConnections) && old(log) <= log
      ensures handles == old(handles) && escaped == old(escaped)
    {
      BeginOutage(Fault(fault));
      ok := FinishRestore(fault, effect);
    }

    /** The first half of `appDuring`. A failing `close` ends the outage at once: an app it stopped stays stopped. */
    method StopApp(app: string, effect: Effect) returns (ok: bool)
      requires Valid()
      modifies this
      ensures Valid() && OnlyOutages() && ok == effect.Done?
      ensures lock.Open? && Exclusive() == (ok || outages != {})
      ensures ok ==> outages == old(outages) + {App(app)} && client.harm == old(client.harm) + {App(app)}
      ensures !ok ==> outages == old(outages) - {App(app)} && client.harm == old(client.harm) - {App(app)}
      ensures client.residue == old(client.residue) + (if effect.FailedAfter? || (effect.FailedBefore? && App(app) in old(client.harm)) then {App(app)} else {})
    {
      ok := Injure(App(app), effect);
      if !ok {
        AbandonAll({App(app)});
        EndOutage(App(app));
      }
    }

    /** The second half of `appDuring`: the outage ends whether or not the app came back. */
    method BootApp(app: string, effect: Effect) returns (ok: bool)
      requires Valid()
      modifies this
      ensures Valid() && OnlyOutages() && ok == effect.Done?
      ensures outages == old(outages) - {App(app)} && client.harm == old(client.harm) - {App(app)}
      ensures lock.Open? == old(lock.Open?) && Exclusive() == (old(Exclusive()) && outages != {})
      ensures client.residue == old(client.residue) + (if ok then {} else old(client.harm) * {App(app)})
    {
      ok := effect.Done?;
      if ok { HealAll({App(app)}); } else { AbandonAll({App(app)}); }
      EndOutage(App(app));
    }

    /** `during` of a proxied service: the restore comes in a `finally`, whatever the body did. */
    method PerformDuring(service: string, cut: Effect, body: seq<Op>, restore: Effect) returns (ok: bool)
      requires Valid()
      modifies this
      ensures Valid() && old(log) <= log && booted == old(booted) && stale == old(stale) && old(escaped) <= escaped
      ensures (View(), ok) == Outcome(proxies, old(View()), During(service, cut, body, restore))
      ensures OnlyAppsAbandoned()
      decreases body, 1
    {
      hide Valid, Outcomes;
      ok := CutProxy(service, cut);
      if ok {
        var went := PerformAll(body);
        var mended := Mend(Service(service), restore);
        ok := went && mended;
      }
    }

    /** `during` of one connection. */
    method PerformDuringConnection(connection: string, cut: Effect, body: seq<Op>, restore: Effect) returns (ok: bool)
      requires Valid()
      modifies this
      ensures Valid() && old(log) <= log && booted == old(booted) && stale == old(stale) && old(escaped) <= escaped
      ensures (View(), ok) == Outcome(proxies, old(View()), DuringConnection(connection, cut, body, restore))
      ensures OnlyAppsAbandoned()
      decreases body, 1
    {
      hide Valid, Outcomes;
      ok := CutOne(connection, cut);
      if ok {
        var went := PerformAll(body);
        var mended := RestoreOne(connection, restore);
        ok := went && mended;
      }
    }

    /** `appDuring`: the app is stopped, the body runs, the app boots again, and the outage ends whether or not it does. */
    method PerformAppDuring(app: string, close: Effect, body: seq<Op>, boot: Effect) returns (ok: bool)
      requires Valid()
      modifies this
      ensures Valid() && old(log) <= log && booted == old(booted) && stale == old(stale) && old(escaped) <= escaped
      ensures (View(), ok) == Outcome(proxies, old(View()), AppDuring(app, close, body, boot))
      ensures OnlyAppsAbandoned()
      decreases body, 1
    {
      hide Valid, Outcomes;
      ok := false;
      if booted {
        ok := StopApp(app, close);
        AppNotStopped(old(View()), app, close);
        if ok {
          assert View() == Hit(old(View()), App(app), close);
          var went := PerformAll(body);
          ghost var inside := View();
          var back := BootApp(app, boot);
          assert inside.residue + {} == inside.residue;
          ok := went && back;
        } else {
          assert View() == AppOver(Hit(old(View()), App(app), close), app, false);
        }
      }
    }

    /** The three calls of a fault handle. */
    method PerformFault(op: Op) returns (ok: bool)
      requires Valid() && (op.PrepareFault? || op.InstallFault? || op.RestoreFault?)
      modifies this
      ensures Valid() && old(log) <= log && booted == old(booted) && stale == old(stale) && old(escaped) <= escaped
      ensures (View(), ok) == Outcome(proxies, old(View()), op)
      ensures client.residue == old(client.residue)
    {
      hide Valid, Outcomes;
      match op
      case PrepareFault(fault, connection, table) => ok := PrepareWriteFault(fault, connection, table);
      case InstallFault(fault, install, captures) =>
        ok := false;
        if fault in handles {
          ok := InstallWriteFault(fault, install, captures);
          assert old(handles)[fault] ==> handles == old(handles) && old(client.harm) + {} == old(client.harm);
        }
      case RestoreFault(fault, restore) =>
        ok := false;
        if fault in handles { ok := RestoreWriteFault(fault, restore); }
        assert old(outages) + {Fault(fault)} - {Fault(fault)} == old(outages) - {Fault(fault)};
    }

    /** Runs one operation of a spec; `ok` is false when it throws. Nothing is abandoned but apps that did not come back. */
    method Perform(op: Op) returns (ok: bool)
      requires Valid()
      modifies this
      ensures Valid() && old(log) <= log && booted == old(booted) && stale == old(stale) && old(escaped) <= escaped
      ensures (View(), ok) == Outcome(proxies, old(View()), op)
      ensures OnlyAppsAbandoned()
      decreases op, 0
    {
      hide Valid, Outcomes;
      match op
      case Cut(service, cut) => ok := CutProxy(service, cut);
      case Restore(service, restore) =>
        ok := false;
        if service in proxies { ok := Mend(Service(service), restore); }
      case During(service, cut, body, restore) => ok := PerformDuring(service, cut, body, restore);
      case CutConnection(connection, cut) => ok := CutOne(connection, cut);
      case RestoreConnection(connection, restore) => ok := RestoreOne(connection, restore);
      case DuringConnection(connection, cut, body, restore) => ok := PerformDuringConnection(connection, cut, body, restore);
      case PrepareFault(_, _, _) => ok := PerformFault(op);
      case InstallFault(_, _, _) => ok := PerformFault(op);
      case RestoreFault(_, _) => ok := PerformFault(op);
      case AppDuring(app, close, body, boot) => ok := PerformAppDuring(app, close, body, boot);
      case RotateSecret(rotate) =>
        ok := false;
        if booted { ok := Injure(Rotation, rotate); }
    }

    /** A spec: operation after operation, until one throws. */
    method PerformAll(ops: seq<Op>) returns (ok: bool)
      requires Valid()
      modifies this
      ensures Valid() && old(log) <= log && booted == old(booted) && stale == old(stale) && old(escaped) <= escaped
      ensures (View(), ok) == Outcomes(proxies, old(View()), ops)
      ensures OnlyAppsAbandoned()
      decreases ops, 0
    {
      hide Valid, Outcome;
      ok := true;
      if ops != [] {
        ok := Perform(ops[0]);
        if ok { ok := PerformAll(ops[1..]); }
      }
    }

    // ---- start, stop ----

    /** Refuses while a write fault is in custody; otherwise boots under a shared hold. */
    method Start(boots: bool) returns (ok: bool)
      requires Valid()
      modifies this
      ensures Valid() && ok == (old(writeFaults) == map[] && boots)
      ensures old(writeFaults) != map[] ==> Same()
      ensures old(writeFaults) == map[] ==> booted == (old(booted) || boots) && lock.Open? && Exclusive() == old(Exclusive())
      ensures outages == old(outages) && writeFaults == old(writeFaults) && client == old(client) && stale == old(stale)
      ensures downConnections == old(downConnections) && handles == old(handles) && escaped == old(escaped) && log == old(log)
    {
      ok := false;
      if writeFaults == map[] {
        if lock.NoLock? { lock := Open(false, false); }
        lock := lock.(sharing := true);
        if boots { booted := true; }
        lock := lock.(sharing := false);
        ok := boots;
      }
    }

    /** Every fault in custody takes the lock and adds its key. */
    method TakeFaultKeys(faults: set<string>)
      requires Valid()
      modifies this
      ensures Valid() && OnlyOutages() && outages == old(outages) + FaultKeys(faults)
      ensures client.harm == old(client.harm) && client.residue == old(client.residue)
      ensures if faults == {} then lock == old(lock) else Exclusive()
    {
      var waiting := faults;
      while waiting != {}
        invariant waiting <= faults && Valid() && OnlyOutages()
        invariant outages == old(outages) + FaultKeys(faults - waiting)
        invariant client.harm == old(client.harm) && client.residue == old(client.residue)
        invariant if waiting == faults then lock == old(lock) else Exclusive()
      {
        var f :| f in waiting;
        BeginOutage(Fault(f));
        assert faults - (waiting - {f}) == (faults - waiting) + {f};
        waiting := waiting - {f};
      }
    }

    /** The restores end in any order; each that succeeds ends its custody and its outage. */
    method FinishRestores(pending: set<string>, restores: string -> Effect)
      requires Valid() && FaultKeys(pending) <= outages && (pending != {} ==> Exclusive())
      modifies this
      ensures Valid() && old(log) <= log && booted == old(booted) && stale == old(stale) && downConnections == old(downConnections)
      ensures writeFaults == old(writeFaults) - Restored(pending, restores) && handles == old(handles) && escaped == old(escaped)
      ensures outages == old(outages) - FaultKeys(Restored(pending, restores))
      ensures client.harm == old(client.harm) - FaultKeys(Restored(pending, restores)) && client.residue == old(client.residue)
      ensures if pending == {} then lock == old(lock) else lock.Open? && Exclusive() == (outages != {})
      decreases pending
    {
      hide Valid, FaultKeys, Restored;
      if pending == {} {
        NoneRestored(restores);
        return;
      }
      var f :| f in pending;
      var rest := pending - {f};
      RestoredStep(pending, f, restores);
      var ok := FinishRestore(f, restores(f));
      assert forall k :: k in FaultKeys(rest) ==> k in outages;
      assert rest != {} ==> exists g :: g in rest && Fault(g) in FaultKeys(rest);
      if rest == {} { NoneRestored(restores); }
      FinishRestores(rest, restores);
    }

    /** The restores of all faults in custody, started together: all have the lock and their key before any has finished. */
    method RestoreFaults(restores: string -> Effect)
      requires Valid()
      modifies this
      ensures Valid() && old(log) <= log && booted == old(booted) && stale == old(stale) && downConnections == old(downConnections)
      ensures handles == old(handles) && escaped == old(escaped)
      ensures writeFaults == old(writeFaults) - Restored(old(writeFaults).Keys, restores)
      ensures outages == old(outages) + FaultKeys(old(writeFaults).Keys) - FaultKeys(Restored(old(writeFaults).Keys, restores))
      ensures client.harm == old(client.harm) - FaultKeys(Restored(old(writeFaults).Keys, restores))
      ensures client.residue == old(client.residue) && lock.Open? == old(lock.Open?)
      ensures if old(writeFaults) == map[] then lock == old(lock) else Exclusive() == (outages != {})
    {
      TakeFaultKeys(writeFaults.Keys);
      FinishRestores(writeFaults.Keys, restores);
    }

    /** What `restoreInfra` reaches: every proxy, and every connection this world took down. */
    predicate Reaches(key: Key, down: set<string>) {
      (key.Service? && key.name in proxies) || (key.Connection? && key.name in down)
    }

    /** What a booted world's stop mends, when the restores of `swallowed` fail unnoticed. */
    function Mended(harm: set<Key>, down: set<string>, swallowed: set<Key>): set<Key> {
      set k | k in harm && Reaches(k, down) && k !in swallowed
    }

    /** `restoreInfra`, for a world that holds the lock: failing restores go unnoticed, and nothing counts as down any more. */
    method RestoreInfra(swallowed: set<Key>)
      requires Valid() && !booted
      modifies this
      ensures Valid() && lock == old(lock) && outages == old(outages) && writeFaults == old(writeFaults) && stale == old(stale)
      ensures client == old(client).(harm := old(client.harm) - Mended(old(client.harm), old(downConnections), swallowed))
      ensures forall k :: k in client.harm <==>
                && k in old(client.harm)
                && !(k !in swallowed && ((k.Service? && k.name in proxies) || (k.Connection? && k.name in old(downConnections))))
      ensures downConnections == if Exclusive() then {} else old(downConnections)
      ensures !booted && old(log) <= log && handles == old(handles) && escaped == old(escaped)
    {
      if Exclusive() {
        HealAll(Mended(client.harm, downConnections, swallowed));
        downConnections := {};
      }
    }

    /** The lock is closed, over whatever is still injured; only the stop of a booted world clears `outages` first. */
    method CloseLock(clear: bool)
      requires Valid() && writeFaults == map[] && !booted
      modifies this
      ensures Valid() && lock.NoLock? && outages == if clear then {} else old(outages)
      ensures client.harm == {} && client.residue == old(client.residue) + old(client.harm)
      ensures stale == old(stale) + outages && downConnections == old(downConnections)
      ensures !booted && writeFaults == map[] && old(log) <= log && handles == old(handles) && escaped == old(escaped)
    {
      hide Disciplined, Replay;
      AbandonAll(client.harm);
      if clear {
        outages := {};
        Record(ClearKeys);
      }
      stale := stale + outages;
      lock := NoLock;
      Record(Shut);
    }

    /** The first thing a stop does. */
    method DropRuntime() returns (runtime: bool)
      requires Valid()
      modifies `booted
      ensures Valid() && !booted && runtime == old(booted)
    {
      runtime := booted;
      booted := false;
    }

    /** What a stop does once the restores of all faults have ended. */
    method FinishStop(runtime: bool, swallowed: set<Key>) returns (ok: bool)
      requires Valid() && !booted
      modifies this
      ensures Valid() && !booted && old(log) <= log && handles == old(handles) && escaped == old(escaped)
      ensures writeFaults == old(writeFaults) && ok == (writeFaults == map[])
      ensures stale == old(stale) + (if ok && !runtime then outages else {})
      ensures outages == if ok && runtime then {} else old(outages)
      ensures if ok then lock.NoLock? else lock == old(lock)
      ensures downConnections == if runtime && old(Exclusive()) then {} else old(downConnections)
      ensures var mended := if runtime then Mended(old(client.harm), old(downConnections), swallowed) else {};
              && client.harm == (if ok then {} else old(client.harm) - mended)
              && client.residue == old(client.residue) + (if ok then old(client.harm) - mended else {})
    {
      hide Disciplined, Replay, Mended, Contained;
      if runtime { RestoreInfra(swallowed); }
      ok := writeFaults == map[];
      if ok { CloseLock(runtime); }
    }

    /**
     Stops the world. Each stop tries every fault in custody exactly once and keeps exactly those that failed, with their keys
     and the exclusive hold; the lock is closed exactly when none is left. Only the stop of a booted world restores the rest
     of the stack, and what that fails to restore is abandoned silently. A write fault stays installed behind a closed lock
     exactly when it was attempted and custody of it was over; keys stay behind exactly when the world was not booted any more.
    */
    method Stop(restores: string -> Effect, swallowed: set<Key>) returns (ok: bool)
      requires Valid()
      modifies this
      ensures Valid() && !booted && old(log) <= log && handles == old(handles) && escaped == old(escaped)
      ensures writeFaults == old(writeFaults) - Restored(old(writeFaults).Keys, restores)
      ensures stale == old(stale) + (if ok && !old(booted) then outages else {})
      ensures ok ==> forall f: string :: Fault(f) in client.residue <==>
                Fault(f) in old(client.residue) || (Fault(f) in old(client.harm) && f !in old(writeFaults))
      ensures ok == (writeFaults == map[]) && ok == lock.NoLock?
      ensures !ok ==> Exclusive() && client.residue == old(client.residue)
      ensures !ok ==>
                var left := old(client.harm) - FaultKeys(Restored(old(writeFaults).Keys, restores));
                && client.harm == left - (if old(booted) then Mended(left, old(downConnections), swallowed) else {})
                && downConnections == if old(booted) then {} else old(downConnections)
      ensures !ok ==> outages == old(outages) + FaultKeys(old(writeFaults).Keys) - FaultKeys(Restored(old(writeFaults).Keys, restores))
      ensures forall f :: f in writeFaults ==> Fault(f) in outages && (Fault(f) in old(client.harm) ==> Fault(f) in client.harm)
      ensures old(booted) ==> forall k ::
                k !in swallowed && ((k.Service? && k.name in proxies) || (k.Connection? && k.name in old(downConnections))) ==>
                  k !in client.harm && (k in client.residue ==> k in old(client.residue))
      ensures forall k :: k in old(client.harm) && !k.Fault? && (k in swallowed || !old(booted)) ==>
                (if ok then k in client.residue else k in client.harm) && (k in client.residue ==> ok || k in old(client.residue))
      ensures old(booted) && swallowed == {} ==> forall k :: k in client.residue && k !in old(client.residue) ==>
                || k.Rotation? || k.App?
                || (k.Fault? && k.name !in old(writeFaults))
                || (k.Service? && k.name !in proxies)
                || (k.Connection? && k.name !in old(downConnections))
      ensures ok ==> client.harm == {} && outages == if old(booted) then {} else old(outages) - FaultKeys(old(writeFaults).Keys)
      ensures ok ==>
                var left := old(client.harm) - FaultKeys(old(writeFaults).Keys);
                client.residue == old(client.residue) +
                  (if old(booted) then left - Mended(left, old(downConnections), swallowed) else left)
    {
      hide Valid, Mended, FaultKeys, Restored, Contained, Disciplined, Replay;
      var runtime := DropRuntime();
      ghost var faults := writeFaults;
      RestoreFaults(restores);
      if writeFaults == map[] {
        AllRestored(faults, restores);
      } else {
        assert forall f :: f in writeFaults ==> Fault(f) in FaultKeys(faults.Keys) && Fault(f) in outages;
      }
      MendedExactly(client.harm, downConnections, swallowed);
      ok := FinishStop(runtime, swallowed);
    }

    /** What `restoreInfra` mends: every proxy, and every connection noted as down, but where its restore fails unnoticed. */
    lemma MendedExactly(harm: set<Key>, down: set<string>, swallowed: set<Key>)
      ensures forall k :: k in Mended(harm, down, swallowed) <==>
                k in harm && k !in swallowed && ((k.Service? && k.name in proxies) || (k.Connection? && k.name in down))
    {
    }
  }

  function FaultKeys(faults: set<string>): (keys: set<Key>)
    ensures forall f: string :: f in faults <==> Fault(f) in keys
    ensures forall k :: k in keys ==> k.Fault?
  {
    set f | f in faults :: Fault(f)
  }

  /** The faults whose restore succeeds. */
  function Restored(faults: set<string>, restores: string -> Effect): set<string> {
    set f | f in faults && restores(f).Done?
  }

  lemma NoneRestored(restores: string -> Effect)
    ensures Restored({}, restores) == {} && FaultKeys({}) == {}
  {
  }

  lemma RestoredStep(pending: set<string>, f: string, restores: string -> Effect)
    requires f in pending
    ensures var one := if restores(f).Done? then {f} else {};
            && Restored(pending, restores) == Restored(pending - {f}, restores) + one
            && FaultKeys(Restored(pending, restores)) == FaultKeys(Restored(pending - {f}, restores)) + FaultKeys(one)
            && FaultKeys(one) == if restores(f).Done? then {Fault(f)} else {}
  {
  }

  lemma AllRestored(faults: map<string, FaultEntry>, restores: string -> Effect)
    requires faults - Restored(faults.Keys, restores) == map[]
    ensures Restored(faults.Keys, restores) == faults.Keys
  {
    forall f | f in faults ensures f in Restored(faults.Keys, restores) {
      assert f !in faults - Restored(faults.Keys, restores);
    }
  }

  /**
   The worlds of a run, each with its own log, interleaved in any way their locks allow and dying at any step: while one has
   injured anything, it has the keys and the hold, and no other live world runs a test or has injured anything.
  */
  lemma WorldsNeverInjureTogether(worlds: seq<World>, s: System, moves: seq<Move>, a: nat, b: nat)
    requires SystemStart(s) && LockValid(s, moves) && |worlds| == |s.clients| && a < |worlds| && b < |worlds| && a != b
    requires forall i :: 0 <= i < |worlds| ==> worlds[i].Valid() && s.clients[i] == NewClient && worlds[i].log == Acts(moves, i)
    requires a in SystemAfter(s, moves).run.alive && b in SystemAfter(s, moves).run.alive
    requires worlds[a].client.harm != {}
    ensures |SystemAfter(s, moves).run.worlds| == |worlds|
    ensures worlds[a].client.harm <= worlds[a].outages && worlds[a].Exclusive()
    ensures HoldsExclusive(SystemAfter(s, moves).run.worlds[a]) && !HoldsShared(SystemAfter(s, moves).run.worlds[b])
    ensures worlds[b].client.harm == {} && !worlds[b].Exclusive()
  {
    hide Disciplined, Replay;
    LogsAreMoves(s, moves);
    SystemInvHolds(s, moves);
    ClientIsReplay(s, moves, a);
    ClientIsReplay(s, moves, b);
    NobodyTestsDuringAnOutage(s, moves, a, b);
  }

  /** A booted world with a cut service and an installed fault. */
  method CutAndFaulted() returns (w: World)
    ensures fresh(w) && w.Valid() && w.booted && w.writeFaults.Keys == {"f"}
    ensures w.outages == {Service("redis"), Fault("f")}
  {
    w := new World({"redis"});
    var ok := w.Start(true);
    ok := w.CutProxy("redis", Done);
    ok := w.PrepareWriteFault("f", "billing", "outbox");
    ok := w.InstallWriteFault("f", Done, true);
  }

  /**
   Keys can outlive their lock: a stop that failed only on a write fault, then a second stop that succeeds, close the lock
   without clearing `outages`. The restarted world carries an outage it does not hold the lock for.
  */
  method StaleKeysAfterTwoStops() returns (w: World)
    ensures fresh(w) && w.Valid() && w.booted && w.outages == {Service("redis")} && !w.Exclusive()
  {
    hide World.Valid;
    w := CutAndFaulted();
    assert FaultKeys({"f"}) == {Fault("f")};
    var ok := w.Stop(f => FailedBefore, {});
    assert w.writeFaults.Keys == {"f"};
    assert w.outages == {Service("redis"), Fault("f")};
    ok := w.Stop(f => Done, {});
    ok := w.Start(true);
  }

  /**
   A fault can outlive its custody: a handle restored before anything was installed leaves custody and still installs. The stop
   then finds nothing to restore, closes the lock and leaves the fault behind.
  */
  method FaultOutlivesCustody() returns (w: World)
    ensures fresh(w) && w.Valid() && w.lock.NoLock? && w.writeFaults == map[] && Fault("f") in w.client.residue
  {
    w := new World({});
    var ok := w.Start(true);
    ok := w.PrepareWriteFault("f", "billing", "outbox");
    ok := w.RestoreWriteFault("f", Done);
    assert w.writeFaults == map[];
    ok := w.InstallWriteFault("f", Done, true);
    assert ok && Fault("f") in w.client.harm && w.Exclusive();
    ok := w.Stop(f => Done, {});
  }
}
