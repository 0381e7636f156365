/**
 A write fault on one table: a trigger and its function under a generated name, installed and removed in transactions. Any
 query may fail, the outcome of a COMMIT may be unknown, and what the handle remembers survives every rollback.
*/
module WriteFaults {

  datatype Option<+T> = None | Some(value: T)

  /** The table as `state` captures it: its identity, its constraints, and its triggers but the generated one. */
  datatype TableState = TableState(oid: nat, constraints: seq<string>, triggers: seq<string>)

  /** A function of the generated name, as the catalog lists it. */
  datatype Function_ = Function_(oid: nat, source: string, result: string, arguments: int, security: bool, language: string)

  /** A trigger of the generated name, as the catalog lists it. */
  datatype Trigger = Trigger(oid: nat, relation: nat, function_: nat, kind: int, enabled: string, internal: bool, constraint_: nat)

  /**
   What the handle can see of the database: the table (absent when there is none, or it is not a regular table of the
   provisioned database), and everything that bears the generated name.
  */
  datatype Catalog = Catalog(table: Option<TableState>, functions: seq<Function_>, triggers: seq<Trigger>)

  datatype Identities = Identities(function_: nat, trigger: nat)

  /** What the handle remembers. */
  datatype Handle = Handle(original: Option<TableState>, identities: Option<Identities>)

  const Unused := Handle(None, None)

  datatype Operation = Insert | Delete

  /** What a handle was made for: its function body and its operation. */
  datatype Fault = Fault(body: string, operation: Operation)

  function KindOf(f: Fault): int {
    if f.operation.Insert? then 7 else 11
  }

  function MadeFunction(f: Fault, oid: nat): Function_ {
    Function_(oid, f.body, "trigger", 0, false, "plpgsql")
  }

  function MadeTrigger(f: Fault, oid: nat, relation: nat, function_: nat): Trigger {
    Trigger(oid, relation, function_, KindOf(f), "O", false, 0)
  }

  // ---- The checks of a handle ----

  /** `state` answers the table, or fails: not the provisioned table, or not as it was captured. */
  predicate StateOk(h: Handle, c: Catalog) {
    c.table.Some? && (h.original.Some? ==> c.table == h.original)
  }

  /** `owned` accepts what was found under the generated name. */
  predicate Owned(f: Fault, h: Handle, c: Catalog) {
    && |c.functions| <= 1 && |c.triggers| <= 1
    && (c.functions != [] ==> c.functions[0] == MadeFunction(f, c.functions[0].oid))
    && (c.triggers != [] ==>
          c.functions != [] && h.original.Some?
          && c.triggers[0] == MadeTrigger(f, c.triggers[0].oid, h.original.value.oid, c.functions[0].oid))
    && (h.identities.Some? ==>
          (c.functions != [] ==> c.functions[0].oid == h.identities.value.function_)
          && (c.triggers != [] ==> c.triggers[0].oid == h.identities.value.trigger))
    && (h.original.None? ==> c.functions == [] && c.triggers == [])
  }

  function Cleared(c: Catalog): Catalog {
    c.(functions := [], triggers := [])
  }

  /** Both generated objects, and nothing else, under the generated name. */
  function WithFault(f: Fault, c: Catalog, relation: nat, ids: Identities): Catalog {
    c.(functions := [MadeFunction(f, ids.function_)], triggers := [MadeTrigger(f, ids.trigger, relation, ids.function_)])
  }

  // ---- What a call may do ----

  /** `install`, whatever fails: all of the fault or nothing, and never without both captures. */
  ghost predicate InstallStep(f: Fault, h: Handle, c: Catalog, h': Handle, c': Catalog, ok: bool) {
    if h.original.Some? then h' == h && c' == c && !ok
    else
      && (h'.original.Some? ==> h'.original == c.table && c.functions == [] && c.triggers == [])
      && (h'.original.None? ==> h' == h)
      && (c' == c || (h'.original.Some? && h'.identities.Some? && c' == WithFault(f, c, c.table.value.oid, h'.identities.value)))
      && (ok ==> h'.original.Some? && h'.identities.Some? && c' == WithFault(f, c, c.table.value.oid, h'.identities.value))
  }

  /** `restore`, whatever fails: it clears the generated name only when the table is untouched and every object is this handle's. */
  ghost predicate RestoreStep(f: Fault, h: Handle, c: Catalog, h': Handle, c': Catalog, ok: bool) {
    && h' == h
    && (c' == c || (StateOk(h, c) && Owned(f, h, c) && c' == Cleared(c)))
    && (ok ==> c' == Cleared(c) && StateOk(h, c'))
  }

  // ---- The calls ----

  datatype Commit = Confirmed | Lost | Refused

  /** One connection: which of its queries fail, and how its COMMIT ends. */
  datatype Script = Script(fails: nat -> bool, commit: Commit)

  ghost predicate Smooth(run: Script) {
    run.commit.Confirmed? && forall q :: !run.fails(q)
  }

  class Server {
    var catalog: Catalog
    var nextOid: nat

    constructor (catalog: Catalog)
      ensures this.catalog == catalog
    {
      this.catalog := catalog;
      nextOid := 1;
    }

    /** The end of a transaction: its work is committed unless the COMMIT was refused; a lost reply reads as a failure. */
    method End(work: Catalog, commit: Commit) returns (ok: bool)
      modifies `catalog
      ensures catalog == if commit.Refused? then old(catalog) else work
      ensures ok == commit.Confirmed?
    {
      if !commit.Refused? { catalog := work; }
      ok := commit.Confirmed?;
    }
  }

  class WriteFault {
    const fault: Fault
    var original: Option<TableState>
    var identities: Option<Identities>

    constructor (fault: Fault)
      ensures this.fault == fault && View() == Unused
    {
      this.fault := fault;
      original := None;
      identities := None;
    }

    function View(): Handle
      reads this
    {
      Handle(original, identities)
    }

    /** The number of generated objects, or nothing when a query fails or a check refuses what it finds. */
    method Count(server: Server, run: Script) returns (n: Option<nat>)
      ensures n.Some? ==> StateOk(View(), server.catalog) && Owned(fault, View(), server.catalog)
      ensures n.Some? ==> n.value == |server.catalog.functions| + |server.catalog.triggers|
      ensures Smooth(run) && StateOk(View(), server.catalog) && Owned(fault, View(), server.catalog) ==> n.Some?
    {
      var c := server.catalog;
      if run.fails(0) || run.fails(1) || !StateOk(View(), c) { return None; }
      if run.fails(2) || !Owned(fault, View(), c) { return None; }
      return Some(|c.functions| + |c.triggers|);
    }

    method Install(server: Server, run: Script, confirm: Script) returns (ok: bool)
      modifies this, server
      ensures InstallStep(fault, old(View()), old(server.catalog), View(), server.catalog, ok)
      ensures (old(View()) == Unused && old(server.catalog).table.Some? && old(server.catalog) == Cleared(old(server.catalog))
               && Smooth(run) && Smooth(confirm)) ==> ok
    {
      if original.Some? { return false; }
      ok := false;
      if run.fails(0) || run.fails(1) { return; }                       // connect, BEGIN
      var work := server.catalog;
      if run.fails(2) || !StateOk(View(), work) { return; }
      if run.fails(3) { return; }                                       // LOCK TABLE
      if run.fails(4) || work.functions != [] || work.triggers != [] { return; }
      if run.fails(5) { return; }
      original := work.table;
      if run.fails(6) { return; }                                       // CREATE FUNCTION
      work := work.(functions := [MadeFunction(fault, server.nextOid)]);
      server.nextOid := server.nextOid + 1;
      if run.fails(7) { return; }                                       // CREATE TRIGGER
      work := work.(triggers := [MadeTrigger(fault, server.nextOid, work.table.value.oid, work.functions[0].oid)]);
      server.nextOid := server.nextOid + 1;
      if run.fails(8) || !StateOk(View(), work) { return; }
      if run.fails(9) || !Owned(fault, View(), work) { return; }
      identities := Some(Identities(work.functions[0].oid, work.triggers[0].oid));
      var ended := server.End(work, run.commit);
      if !ended { return; }
      var n := Count(server, confirm);
      ok := n == Some(2);
    }

    method Restore(server: Server, run: Script, confirm: Script) returns (ok: bool)
      modifies server
      ensures RestoreStep(fault, View(), old(server.catalog), View(), server.catalog, ok)
      ensures (StateOk(View(), old(server.catalog)) && Owned(fault, View(), old(server.catalog))
               && Smooth(run) && Smooth(confirm)) ==> ok
    {
      ok := false;
      if run.fails(0) || run.fails(1) { return; }                       // connect, BEGIN
      var work := server.catalog;
      if run.fails(2) || !StateOk(View(), work) { return; }
      if run.fails(3) { return; }                                       // LOCK TABLE
      if run.fails(4) || !Owned(fault, View(), work) { return; }
      if work.triggers != [] {
        if run.fails(5) { return; }                                     // DROP TRIGGER
        work := work.(triggers := []);
      }
      if work.functions != [] {
        if run.fails(6) { return; }                                     // DROP FUNCTION
        work := work.(functions := []);
      }
      if run.fails(7) || work.functions != [] || work.triggers != [] { return; }
      if run.fails(8) || !StateOk(View(), work) { return; }
      var ended := server.End(work, run.commit);
      if !ended { return; }
      var n := Count(server, confirm);
      ok := n == Some(0);
    }
  }

  // ---- Every sequence of calls ----

  /** One event of a handle's life. Others may change the table as they like, and take generated objects away, but never make any. */
  datatype Event =
    | Installs(after: Handle, catalog: Catalog, ok: bool)
    | Restores(after: Handle, catalog: Catalog, ok: bool)
    | OthersChange(catalog: Catalog)

  ghost predicate Step(f: Fault, h: Handle, c: Catalog, e: Event) {
    match e
    case Installs(h', c', ok) => InstallStep(f, h, c, h', c', ok)
    case Restores(h', c', ok) => RestoreStep(f, h, c, h', c', ok)
    case OthersChange(c') =>
      && (c'.functions == c.functions || (c'.functions == [] && c'.triggers == []))
      && (c'.triggers == c.triggers || c'.triggers == [])
  }

  function HandleAfter(h: Handle, e: Event): Handle {
    if e.OthersChange? then h else e.after
  }

  ghost predicate Life(f: Fault, h: Handle, c: Catalog, events: seq<Event>)
    decreases |events|
  {
    events == [] || (Step(f, h, c, events[0]) && Life(f, HandleAfter(h, events[0]), events[0].catalog, events[1..]))
  }

  function LastHandle(h: Handle, events: seq<Event>): Handle
    decreases |events|
  {
    if events == [] then h else LastHandle(HandleAfter(h, events[0]), events[1..])
  }

  function LastCatalog(c: Catalog, events: seq<Event>): Catalog
    decreases |events|
  {
    if events == [] then c else LastCatalog(events[0].catalog, events[1..])
  }

  /** Nothing bears the generated name. */
  predicate Clean(c: Catalog) {
    c.functions == [] && c.triggers == []
  }

  /**
   Custody: whatever bears the generated name was made by this handle, after it captured the table and with both identities
   captured, and matches them. So before the capture there is nothing.
  */
  predicate Custody(f: Fault, h: Handle, c: Catalog) {
    && (h.identities.Some? ==> h.original.Some?)
    && (!Clean(c) ==> h.original.Some? && h.identities.Some?)
    && Owned(f, h, c)
  }

  lemma StepKeepsCustody(f: Fault, h: Handle, c: Catalog, e: Event)
    requires Custody(f, h, c) && Step(f, h, c, e)
    ensures Custody(f, HandleAfter(h, e), e.catalog)
  {
  }

  lemma {:induction false} LifeKeepsCustody(f: Fault, h: Handle, c: Catalog, events: seq<Event>)
    requires Custody(f, h, c) && Life(f, h, c, events)
    ensures Custody(f, LastHandle(h, events), LastCatalog(c, events))
    decreases |events|
  {
    if events != [] {
      StepKeepsCustody(f, h, c, events[0]);
      LifeKeepsCustody(f, HandleAfter(h, events[0]), events[0].catalog, events[1..]);
    }
  }

  /**
   Fault handle safety: after any life of a handle that began with nothing under its generated name, with any failures, unknown
   commits and foreign changes: if anything is committed under the name, the handle has captured the table and both identities,
   and what is committed is its own function with the captured identity, and at most its own trigger on the captured table with
   the captured identity.
  */
  lemma CommittedImpliesCaptured(f: Fault, c: Catalog, events: seq<Event>)
    requires Clean(c) && Life(f, Unused, c, events)
    ensures var h, last := LastHandle(Unused, events), LastCatalog(c, events);
            !Clean(last) ==>
              && h.original.Some? && h.identities.Some?
              && last.functions == [MadeFunction(f, h.identities.value.function_)]
              && (last.triggers == []
                  || last.triggers == [MadeTrigger(f, h.identities.value.trigger, h.original.value.oid, h.identities.value.function_)])
  {
    LifeKeepsCustody(f, Unused, c, events);
  }

  /** A handle that captured nothing has made nothing, and its restore has nothing to do. */
  lemma UncapturedMadeNothing(f: Fault, c: Catalog, events: seq<Event>)
    requires Clean(c) && Life(f, Unused, c, events) && LastHandle(Unused, events).original.None?
    ensures Clean(LastCatalog(c, events)) && Owned(f, LastHandle(Unused, events), LastCatalog(c, events))
  {
    LifeKeepsCustody(f, Unused, c, events);
  }

  /** Nothing under the generated name, or both objects: neither call leaves one without the other. */
  predicate AllOrNothing(c: Catalog) {
    |c.functions| == |c.triggers|
  }

  lemma CallsAreAllOrNothing(f: Fault, h: Handle, c: Catalog, e: Event)
    requires Step(f, h, c, e) && !e.OthersChange? && AllOrNothing(c)
    ensures AllOrNothing(e.catalog) && e.catalog.table == c.table
  {
  }

  /**
   Cleanup is always possible: after any life from an unused handle, while the table is as it was captured, a restore whose
   queries all succeed succeeds, and leaves the captured table and nothing under the generated name.
  */
  method RestoreAlwaysPossible(w: WriteFault, server: Server, ghost c: Catalog, ghost events: seq<Event>)
    requires Clean(c) && Life(w.fault, Unused, c, events)
    requires w.View() == LastHandle(Unused, events) && server.catalog == LastCatalog(c, events)
    requires w.original.Some? && server.catalog.table == w.original
    modifies server
    ensures server.catalog == Catalog(w.original, [], [])
  {
    LifeKeepsCustody(w.fault, Unused, c, events);
    var ok := w.Restore(server, Script(q => false, Confirmed), Script(q => false, Confirmed));
  }

  /** A second restore finds nothing to do. */
  lemma RestoreIsIdempotent(f: Fault, h: Handle, c: Catalog, once: Catalog, twice: Catalog, ok: bool)
    requires RestoreStep(f, h, c, h, once, true) && RestoreStep(f, h, once, h, twice, ok)
    ensures twice == once
  {
  }

  /** A foreign object under the generated name is never removed: neither call changes anything while there is one. */
  lemma ForeignObjectsStay(f: Fault, h: Handle, c: Catalog, e: Event)
    requires Step(f, h, c, e) && !e.OthersChange? && !Owned(f, h, c) && (h.original.None? ==> c.functions != [] || c.triggers != [])
    ensures e.catalog == c && !e.ok
  {
  }

  /** Restoring a handle that captured nothing succeeds, and does not use it up: its next installation commits the fault. */
  method RestoredHandleStillInstalls(w: WriteFault, server: Server)
    requires w.View() == Unused && server.catalog.table.Some? && Clean(server.catalog)
    modifies w, server
    ensures |server.catalog.functions| == 1 && |server.catalog.triggers| == 1 && w.original.Some?
  {
    var always := Script(q => false, Confirmed);
    var ok := w.Restore(server, always, always);
    assert ok;
    ok := w.Install(server, always, always);
    assert ok;
  }

  // ---- What an installed fault does ----

  // The bits of a trigger's kind in the catalog: for each row, before the operation, and which operation.
  const ROW := 1
  const BEFORE := 2
  const INSERT := 4
  const DELETE := 8

  predicate Has(kind: int, bit: nat)
    requires bit > 0
  {
    kind / bit % 2 == 1
  }

  /** Every row an operation would write to the table runs the given function body first. */
  predicate Rejects(c: Catalog, relation: nat, operation: Operation, body: string) {
    exists t <- c.triggers ::
      && t.relation == relation && t.enabled == "O" && !t.internal && t.constraint_ == 0
      && Has(t.kind, ROW) && Has(t.kind, BEFORE) && Has(t.kind, if operation.Insert? then INSERT else DELETE)
      && exists g <- c.functions ::
           g.oid == t.function_ && g.source == body && g.result == "trigger" && g.arguments == 0 && !g.security && g.language == "plpgsql"
  }

  /** After a confirmed installation every write of the chosen operation to the table is rejected by the fault's own body, and no other. */
  lemma InstalledRejects(f: Fault, h: Handle, c: Catalog, h': Handle, c': Catalog)
    requires InstallStep(f, h, c, h', c', true)
    ensures c.table.Some? && c'.table == c.table && |c'.functions| == 1 && |c'.triggers| == 1
    ensures forall operation :: Rejects(c', c.table.value.oid, operation, f.body) <==> operation == f.operation
    ensures h'.original == c.table && h'.identities == Some(Identities(c'.functions[0].oid, c'.triggers[0].oid))
  {
    assert c'.triggers[0] in c'.triggers && c'.functions[0] in c'.functions;
  }

  /** After a confirmed restore nothing is rejected, and the table is as it was captured, constraints and other triggers included. */
  lemma RestoredRejectsNothing(f: Fault, h: Handle, c: Catalog, c': Catalog, operation: Operation, body: string)
    requires RestoreStep(f, h, c, h, c', true)
    ensures c'.functions == [] && c'.triggers == [] && c'.table == c.table && c'.table.Some?
    ensures h.original.Some? ==> c'.table == h.original
    ensures forall relation :: !Rejects(c', relation, operation, body)
  {
  }

  /** A table that is not the provisioned one, or not as it was captured, is left alone, and the call fails. */
  lemma ChangedTableIsLeftAlone(f: Fault, h: Handle, c: Catalog, e: Event)
    requires Step(f, h, c, e) && !e.OthersChange? && (c.table.None? || (h.original.Some? && c.table != h.original))
    ensures e.catalog == c && !e.ok
  {
  }

  /** What is not this handle's, in plain words: more than one of a kind, another body, another table, or another identity. */
  lemma NotOwnStays(f: Fault, h: Handle, c: Catalog, e: Event)
    requires Step(f, h, c, e) && !e.OthersChange?
    requires || |c.functions| > 1 || |c.triggers| > 1
             || (|c.functions| == 1 && (c.functions[0].source != f.body || c.functions[0].security || c.functions[0].arguments != 0))
             || (|c.triggers| == 1 && (c.functions == [] || c.triggers[0].function_ != c.functions[0].oid || c.triggers[0].enabled != "O"))
             || (|c.triggers| == 1 && h.original.Some? && c.triggers[0].relation != h.original.value.oid)
             || (h.original.None? && c.functions != [])
             || (h.identities.Some? && |c.functions| == 1 && c.functions[0].oid != h.identities.value.function_)
             || (h.identities.Some? && |c.triggers| == 1 && c.triggers[0].oid != h.identities.value.trigger)
    ensures e.catalog == c && !e.ok
  {
  }

  /** A handle installs once: after its capture a second installation fails and changes nothing. */
  lemma InstallsOnce(f: Fault, h: Handle, c: Catalog, h': Handle, c': Catalog, ok: bool)
    requires InstallStep(f, h, c, h', c', ok) && h.original.Some?
    ensures !ok && c' == c && h' == h
  {
  }
}
