/**
 The lock objects and the folder they share, changed in place. Each world's code runs one file operation at a time
 (`Resume`); a run hands the turns out in any order. What the protocol proves of its values holds of these objects.
*/
module WorldLocks {
  import opened LockProtocol

  /** The lock folder of the run: the writer directory and the shared-holder files. */
  class LockFolder {
    var writer: WriterDir
    var shared: set<World>

    constructor ()
      ensures View() == Directory(Absent, {})
    {
      writer := Absent;
      shared := {};
    }

    function View(): Directory
      reads this
    {
      Directory(writer, shared)
    }
  }

  /** One world's lock object: its fields, and where its pending call stands between two file operations. */
  class WorldLock {
    const owner: World
    const folder: LockFolder
    var sharing: bool
    var writing: bool
    var closed: bool
    var at: Point

    constructor (owner: World, folder: LockFolder)
      ensures this.owner == owner && this.folder == folder && View() == Fresh
    {
      this.owner := owner;
      this.folder := folder;
      sharing := false;
      writing := false;
      closed := false;
      at := Idle;
    }

    function View(): Local
      reads this
    {
      Local(at, sharing, writing, closed)
    }

    method BeginShare()
      modifies this
      ensures View() == Begin(old(View()), Share)
    {
      if closed || sharing { return; }
      at := if writing then ShareWrite else ShareStat(First);
    }

    method BeginUnshare()
      modifies this
      ensures View() == Begin(old(View()), Unshare)
    {
      if !sharing { return; }
      sharing := false;
      at := UnshareRemove;
    }

    method BeginAcquire()
      modifies this
      ensures View() == Begin(old(View()), Acquire)
    {
      if closed || writing { return; }
      at := if sharing then AcquireRemove else AcquireMkdir;
    }

    method BeginRelease()
      modifies this
      ensures View() == Begin(old(View()), Release)
    {
      if !writing { return; }
      writing := false;
      at := ReleaseUnlink;
    }

    method BeginClose()
      modifies this
      ensures View() == Begin(old(View()), Close)
    {
      closed := true;
      if writing {
        writing := false;
        at := CloseUnlink;
      } else {
        sharing := false;
        at := CloseRemove;
      }
    }

    method WriteShared()
      modifies folder
      ensures folder.View() == old(folder.View()).(shared := old(folder.shared) + {owner})
    {
      folder.shared := folder.shared + {owner};
    }

    method RemoveShared()
      modifies folder
      ensures folder.View() == old(folder.View()).(shared := old(folder.shared) - {owner})
    {
      folder.shared := folder.shared - {owner};
    }

    /** `otherWriter` answered null in this round of `share`. */
    method SharePass(round: Round)
      modifies this
      ensures View() == SharePassed(old(View()), round)
    {
      if round.First? {
        at := ShareWrite;
      } else {
        sharing := true;
        at := Idle;
      }
    }

    /** `otherWriter` answered another world in this round of `share`. */
    method ShareBlock(round: Round)
      modifies this
      ensures View() == ShareBlocked(old(View()), round)
    {
      at := if round.First? then ShareWait else ShareRemove;
    }

    method BreakStaleWriter(alive: set<World>, aged: bool)
      modifies folder
      ensures folder.View() == BreakStale(owner, old(folder.View()), alive, aged)
    {
      match folder.writer
      case Absent =>
      case Held(w, named) =>
        if named {
          if w == owner || w in alive { return; }
        } else {
          if w in alive || !aged { return; }
        }
        folder.writer := Absent;
    }

    /** The outcome of the two operations of `otherWriter` that only read. */
    method AskForWriter(round: Round, alive: set<World>)
      requires at == ShareStat(round) || at == ShareRead(round)
      modifies this
      ensures (View(), folder.View()) == Advance(owner, old(View()), old(folder.View()), alive, Choice(true, []))
    {
      if at.ShareStat? {
        if folder.writer.Absent? { SharePass(round); } else { at := ShareRead(round); }
      } else if folder.writer.Absent? || !folder.writer.named {
        ShareBlock(round);
      } else if folder.writer.creator == owner {
        SharePass(round);
      } else if folder.writer.creator !in alive {
        at := ShareBreak(round);
      } else {
        ShareBlock(round);
      }
    }

    /** One turn of the scan of `otherSharedHolders`. */
    method ScanNext(names: seq<World>, found: bool, alive: set<World>)
      requires at == AcquireScan(names, found)
      modifies this
      ensures (View(), folder.View()) == Advance(owner, old(View()), old(folder.View()), alive, Choice(true, []))
    {
      if names == [] {
        at := if found then AcquireDrainWait else if sharing then AcquireRewrite else Idle;
      } else if names[0] == owner {
        at := AcquireScan(names[1..], found);
      } else if names[0] in folder.shared && names[0] !in alive {
        at := AcquireForget(names[0], names[1..], found);
      } else {
        at := AcquireScan(names[1..], true);
      }
    }

    /** The file operations of `share` and `unshare`. */
    method ResumeShare(alive: set<World>, c: Choice)
      requires SharePoint(at)
      modifies this, folder
      ensures (View(), folder.View()) == Advance(owner, old(View()), old(folder.View()), alive, c)
    {
      match at
      case ShareStat(r) => AskForWriter(r, alive);
      case ShareRead(r) => AskForWriter(r, alive);
      case ShareBreak(r) => BreakStaleWriter(alive, c.aged); SharePass(r);
      case ShareWrite =>
        WriteShared();
        if writing { SharePass(Second); } else { at := ShareStat(Second); }
      case ShareRemove => RemoveShared(); at := ShareWait;
      case ShareWait => at := ShareStat(First);
      case UnshareRemove => RemoveShared(); at := Idle;
    }

    /** The file operations of `acquire`. */
    method ResumeAcquire(alive: set<World>, c: Choice)
      requires AcquirePoint(at)
      modifies this, folder
      ensures (View(), folder.View()) == Advance(owner, old(View()), old(folder.View()), alive, c)
    {
      match at
      case AcquireRemove => RemoveShared(); at := AcquireMkdir;
      case AcquireMkdir =>
        if folder.writer.Absent? {
          folder.writer := Held(owner, false);
          at := AcquireOwner;
        } else {
          at := AcquireBreak;
        }
      case AcquireOwner =>
        folder.writer := Held(owner, true);
        writing := true;
        at := AcquireList;
      case AcquireBreak => BreakStaleWriter(alive, c.aged); at := AcquireSlotWait;
      case AcquireSlotWait => at := AcquireMkdir;
      case AcquireList => at := AcquireScan(c.listing, false);
      case AcquireScan(names, found) => ScanNext(names, found, alive);
      case AcquireForget(dead, names, found) =>
        folder.shared := folder.shared - {dead};
        at := AcquireScan(names, found);
      case AcquireDrainWait => at := AcquireList;
      case AcquireRewrite => WriteShared(); at := Idle;
    }

    /** The file operations of `release` and `close`; none when no call is pending. */
    method ResumeRelease(alive: set<World>, c: Choice)
      requires !SharePoint(at) && !AcquirePoint(at)
      modifies this, folder
      ensures (View(), folder.View()) == Advance(owner, old(View()), old(folder.View()), alive, c)
    {
      match at
      case Idle =>
      case Closed =>
      case ReleaseUnlink => folder.writer := Held(owner, false); at := ReleaseRmdir;
      case ReleaseRmdir => folder.writer := Absent; at := if sharing then ReleaseRewrite else Idle;
      case ReleaseRewrite => WriteShared(); at := Idle;
      case CloseUnlink => folder.writer := Held(owner, false); at := CloseRmdir;
      case CloseRmdir => folder.writer := Absent; at := if sharing then CloseRewrite else CloseRemove;
      case CloseRewrite => WriteShared(); sharing := false; at := CloseRemove;
      case CloseRemove => RemoveShared(); at := Closed;
    }

    /** Performs the file operation the pending call stands at, and the code up to the next one. */
    method Resume(alive: set<World>, c: Choice)
      modifies this, folder
      ensures (View(), folder.View()) == Advance(owner, old(View()), old(folder.View()), alive, c)
    {
      if SharePoint(at) {
        ResumeShare(alive, c);
      } else if AcquirePoint(at) {
        ResumeAcquire(alive, c);
      } else {
        ResumeRelease(alive, c);
      }
    }
  }

  /** All worlds of a run on one folder. Every turn keeps the invariant, so every guarantee proved from it. */
  class LockRun {
    const folder: LockFolder
    const locks: seq<WorldLock>
    var alive: set<World>

    constructor (folder: LockFolder, locks: seq<WorldLock>, alive: set<World>)
      requires forall i :: 0 <= i < |locks| ==> locks[i].owner == i && locks[i].folder == folder && locks[i].View() == Fresh
      requires forall i, j :: 0 <= i < j < |locks| ==> locks[i] != locks[j]
      requires folder.View() == Directory(Absent, {}) && forall i: World :: i in alive <==> i < |locks|
      ensures Valid() && Start(View())
    {
      this.folder := folder;
      this.locks := locks;
      this.alive := alive;
    }

    ghost predicate Wired()
      reads this, locks
    {
      && (forall i :: 0 <= i < |locks| ==> locks[i].owner == i && locks[i].folder == folder)
      && (forall i, j :: 0 <= i < j < |locks| ==> locks[i] != locks[j])
    }

    ghost function View(): (s: State)
      reads this, locks, folder
    {
      State(seq(|locks|, i requires 0 <= i < |locks| reads this, locks => locks[i].View()), folder.View(), alive)
    }

    ghost predicate Valid()
      reads this, locks, folder
    {
      Wired() && Inv(View())
    }

    method Issue(i: World, call: Call)
      requires Valid() && Enabled(View(), Calls(i, call))
      modifies locks[i]
      ensures Valid() && View() == Apply(old(View()), Calls(i, call))
    {
      ghost var was := View();
      match call {
        case Share => locks[i].BeginShare();
        case Unshare => locks[i].BeginUnshare();
        case Acquire => locks[i].BeginAcquire();
        case Release => locks[i].BeginRelease();
        case Close => locks[i].BeginClose();
      }
      assert View().worlds == Apply(was, Calls(i, call)).worlds;
      CallKeepsInv(was, i, call);
    }

    method Turn(i: World, c: Choice)
      requires Valid() && Enabled(View(), Steps(i, c))
      modifies locks[i], folder
      ensures Valid() && View() == Apply(old(View()), Steps(i, c))
    {
      ghost var was := View();
      locks[i].Resume(alive, c);
      assert View().worlds == Apply(was, Steps(i, c)).worlds;
      StepKeepsInv(was, i, c);
    }

    method Kill(i: World)
      requires Valid() && Enabled(View(), Dies(i))
      modifies this
      ensures Valid() && View() == Apply(old(View()), Dies(i))
    {
      ghost var was := View();
      alive := alive - {i};
      assert View().worlds == was.worlds;
      DeathKeepsInv(was, i);
    }
  }
}
