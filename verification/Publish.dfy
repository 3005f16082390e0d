/** The no-clobber publication of a real holdout run, as interleaved steps of any number of
    runs over one directory: existence check, temp file, atomic link, conflict rename. Any run
    may crash between any two steps. */
module Publish {

  type Pid = nat
  type Inode = nat

  /** Names in the output directory. Temp and conflict names come from mkstemp; their prefixes
      and suffixes keep the three kinds apart. */
  datatype Path = Dest | Temp(name: nat) | Conflict(name: nat)

  /** File contents: `Foreign` is whatever was there before the runs. */
  datatype Content = Foreign | Empty | Partial(writer: Pid) | Artefact(of: Pid)

  /** How far a run has got. */
  datatype Pc =
    | Start
    | Refused        // the destination existed at the pre-open check
    | Checked        // the holdout may now be read
    | Named          // temp file made, nothing written
    | Writing
    | Written        // artefact complete and closed
    | Linked         // published; temp name not yet removed
    | Finished       // published, temp name removed
    | LinkRefused    // the destination appeared in the meantime
    | Reserved       // conflict name allocated
    | Kept           // artefact renamed to the conflict name; the run fails

  datatype Run = Run(pc: Pc, tmp: nat, keep: nat, fd: Inode, alive: bool)

  datatype Directory = Directory(names: map<Path, Inode>, disk: map<Inode, Content>, runs: map<Pid, Run>)

  datatype Act =
    | CheckDest | MakeTemp(name: nat, inode: Inode) | WriteSome | FinishWrite
    | LinkDest | UnlinkTemp | MakeConflict(name: nat, inode: Inode) | RenameToConflict | Crash

  datatype Event = Event(pid: Pid, act: Act)

  /** The caller of mkstemp gets a name and a file that did not exist. */
  predicate Fresh(s: Directory, path: Path, inode: Inode) { path !in s.names && inode !in s.disk }

  predicate Enabled(s: Directory, e: Event) {
    && e.pid in s.runs
    && var r := s.runs[e.pid];
       && r.alive
       && match e.act
          case CheckDest => r.pc == Start
          case MakeTemp(name, inode) => r.pc == Checked && Fresh(s, Temp(name), inode)
          case WriteSome => r.pc == Named || r.pc == Writing
          case FinishWrite => r.pc == Named || r.pc == Writing
          case LinkDest => r.pc == Written && Temp(r.tmp) in s.names
          case UnlinkTemp => r.pc == Linked
          case MakeConflict(name, inode) => r.pc == LinkRefused && Fresh(s, Conflict(name), inode)
          case RenameToConflict => r.pc == Reserved && Temp(r.tmp) in s.names
          case Crash => true
  }

  /** One step of one run; an event that is not enabled changes nothing. */
  function Step(s: Directory, e: Event): Directory {
    if !Enabled(s, e) then s
    else
      var r := s.runs[e.pid];
      match e.act
      case CheckDest =>
        s.(runs := s.runs[e.pid := r.(pc := if Dest in s.names then Refused else Checked)])
      case MakeTemp(name, inode) =>
        Directory(s.names[Temp(name) := inode], s.disk[inode := Empty],
                  s.runs[e.pid := r.(pc := Named, tmp := name, fd := inode)])
      case WriteSome =>
        s.(disk := s.disk[r.fd := Partial(e.pid)], runs := s.runs[e.pid := r.(pc := Writing)])
      case FinishWrite =>
        s.(disk := s.disk[r.fd := Artefact(e.pid)], runs := s.runs[e.pid := r.(pc := Written)])
      case LinkDest =>
        if Dest in s.names then s.(runs := s.runs[e.pid := r.(pc := LinkRefused)])
        else s.(names := s.names[Dest := s.names[Temp(r.tmp)]], runs := s.runs[e.pid := r.(pc := Linked)])
      case UnlinkTemp =>
        s.(names := s.names - {Temp(r.tmp)}, runs := s.runs[e.pid := r.(pc := Finished)])
      case MakeConflict(name, inode) =>
        Directory(s.names[Conflict(name) := inode], s.disk[inode := Empty],
                  s.runs[e.pid := r.(pc := Reserved, keep := name)])
      case RenameToConflict =>
        s.(names := (s.names - {Temp(r.tmp)})[Conflict(r.keep) := s.names[Temp(r.tmp)]],
           runs := s.runs[e.pid := r.(pc := Kept)])
      case Crash =>
        s.(runs := s.runs[e.pid := r.(alive := false)])
  }

  /** Any interleaving: any list of events. */
  function Behave(s: Directory, events: seq<Event>): Directory {
    if |events| == 0 then s else Step(Behave(s, events[..|events| - 1]), events[|events| - 1])
  }

  /** Runs about to start, over a directory that may already hold anything, crashed runs' temp
      files and an earlier published artefact included. */
  ghost predicate Init(s: Directory) {
    && (forall p :: p in s.runs ==> s.runs[p].pc == Start)
    && (forall path :: path in s.names ==> s.names[path] in s.disk)
    && (forall i :: i in s.disk ==> s.disk[i] == Foreign)
  }

  // --- the invariant ------------------------------------------------------------------------

  predicate HasFile(pc: Pc) { pc !in {Start, Refused, Checked} }
  predicate PastWrite(pc: Pc) { HasFile(pc) && pc !in {Named, Writing} }
  predicate Published(pc: Pc) { pc == Linked || pc == Finished }
  predicate HasConflictName(pc: Pc) { pc == Reserved || pc == Kept }

  /** The paths a run's file is reachable under, by how far the run got. */
  function Places(r: Run): set<Path> {
    match r.pc
    case Linked => {Temp(r.tmp), Dest}
    case Finished => {Dest}
    case Kept => {Conflict(r.keep)}
    case _ => {Temp(r.tmp)}
  }

  function Holders(s: Directory, i: Inode): set<Path> { set path | path in s.names && s.names[path] == i }

  ghost predicate RunOk(s: Directory, p: Pid)
    requires p in s.runs
  {
    var r := s.runs[p];
    && (HasFile(r.pc) ==> r.fd in s.disk && Holders(s, r.fd) == Places(r))
    && (PastWrite(r.pc) ==> r.fd in s.disk && s.disk[r.fd] == Artefact(p))
    && (HasConflictName(r.pc) ==> Conflict(r.keep) in s.names)
    && (r.pc in {LinkRefused, Reserved, Kept} ==> Dest in s.names)
  }

  ghost predicate Inv(s: Directory) {
    && (forall path :: path in s.names ==> s.names[path] in s.disk)
    && (forall p :: p in s.runs ==> RunOk(s, p))
    && (forall p, q :: p in s.runs && q in s.runs && p != q && HasFile(s.runs[p].pc) && HasFile(s.runs[q].pc)
          ==> s.runs[p].fd != s.runs[q].fd)
    && (forall p, q :: p in s.runs && q in s.runs && p != q
          && HasConflictName(s.runs[p].pc) && HasConflictName(s.runs[q].pc)
          ==> s.runs[p].keep != s.runs[q].keep)
    && (forall i, p :: i in s.disk && s.disk[i] == Artefact(p)
          ==> p in s.runs && PastWrite(s.runs[p].pc) && s.runs[p].fd == i)
  }

  lemma InitInv(s: Directory)
    requires Init(s)
    ensures Inv(s)
  {
  }

  lemma HoldersOf(s: Directory, p: Pid)
    requires Inv(s) && p in s.runs && HasFile(s.runs[p].pc)
    ensures var r := s.runs[p];
      r.fd in s.disk && forall path :: (path in s.names && s.names[path] == r.fd) <==> path in Places(r)
  {
    assert RunOk(s, p);
    assert forall path :: path in Holders(s, s.runs[p].fd) <==> path in s.names && s.names[path] == s.runs[p].fd;
  }

  /** A step changes no name pointing to inode `i`, provided the acting run's own names point
      elsewhere. */
  lemma NamesUntouched(s: Directory, e: Event, i: Inode)
    requires Enabled(s, e) && i in s.disk
    requires var r := s.runs[e.pid];
      && (HasFile(r.pc) && r.pc !in {Finished, Kept} && Temp(r.tmp) in s.names ==> s.names[Temp(r.tmp)] != i)
      && (HasConflictName(r.pc) && Conflict(r.keep) in s.names ==> s.names[Conflict(r.keep)] != i)
    ensures Holders(Step(s, e), i) == Holders(s, i)
  {
    match e.act
    case CheckDest =>
    case MakeTemp(name, inode) =>
    case WriteSome =>
    case FinishWrite =>
    case LinkDest =>
    case UnlinkTemp =>
    case MakeConflict(name, inode) =>
    case RenameToConflict =>
    case Crash =>
  }

  lemma ContentUntouched(s: Directory, e: Event, p: Pid, i: Inode)
    requires Enabled(s, e) && p in s.runs && p != e.pid && i in s.disk
    requires HasFile(s.runs[e.pid].pc) ==> s.runs[e.pid].fd != i
    ensures var t := Step(s, e);
      p in t.runs && t.runs[p] == s.runs[p] && i in t.disk && t.disk[i] == s.disk[i]
  {
  }

  /** What the acting run's names point to is not another run's file. */
  lemma OwnNamesElsewhere(s: Directory, r: Pid, p: Pid)
    requires Inv(s) && r in s.runs && p in s.runs && p != r && HasFile(s.runs[p].pc)
    ensures var own, i := s.runs[r], s.runs[p].fd;
      && i in s.disk
      && (HasFile(own.pc) ==> own.fd != i)
      && (HasFile(own.pc) && own.pc !in {Finished, Kept} && Temp(own.tmp) in s.names ==> s.names[Temp(own.tmp)] != i)
      && (HasConflictName(own.pc) && Conflict(own.keep) in s.names ==> s.names[Conflict(own.keep)] != i)
  {
    HoldersOf(s, p);
    if HasFile(s.runs[r].pc) {
      HoldersOf(s, r);
    }
    hide RunOk, Holders;
  }

  /** A step of another run leaves a run's file alone: same content, reachable under the same
      paths. */
  lemma OthersUntouched(s: Directory, e: Event, p: Pid)
    requires Inv(s) && Enabled(s, e) && p in s.runs && p != e.pid && HasFile(s.runs[p].pc)
    ensures var t, i := Step(s, e), s.runs[p].fd;
      p in t.runs && t.runs[p] == s.runs[p] && i in s.disk && i in t.disk && t.disk[i] == s.disk[i]
      && Holders(t, i) == Holders(s, i)
  {
    hide Inv, Holders, RunOk, Places;
    OwnNamesElsewhere(s, e.pid, p);
    ContentUntouched(s, e, p, s.runs[p].fd);
    NamesUntouched(s, e, s.runs[p].fd);
  }

  lemma StepOther(s: Directory, e: Event, p: Pid)
    requires Inv(s) && Enabled(s, e) && p in s.runs && p != e.pid
    ensures p in Step(s, e).runs && RunOk(Step(s, e), p)
  {
    var t := Step(s, e);
    assert RunOk(s, p);
    OtherNames(s, e, p);
    hide Step, Enabled, Inv, Holders, HasFile, Places;
    if HasFile(s.runs[p].pc) {
      OthersUntouched(s, e, p);
    }
    assert PastWrite(s.runs[p].pc) ==> HasFile(s.runs[p].pc);
  }

  /** The destination and another run's conflict name stay in the directory. */
  lemma OtherNames(s: Directory, e: Event, p: Pid)
    requires Enabled(s, e) && p in s.runs && p != e.pid
    ensures var t := Step(s, e);
      && p in t.runs && t.runs[p] == s.runs[p]
      && (Dest in s.names ==> Dest in t.names)
      && forall name :: Conflict(name) in s.names ==> Conflict(name) in t.names
  {
  }

  lemma HoldersArePlaces(s: Directory, i: Inode, places: set<Path>)
    requires forall path :: (path in s.names && s.names[path] == i) <==> path in places
    ensures Holders(s, i) == places
  {
  }

  lemma StepOwn(s: Directory, e: Event)
    requires Inv(s) && Enabled(s, e)
    ensures e.pid in Step(s, e).runs && RunOk(Step(s, e), e.pid)
  {
    var t := Step(s, e);
    assert RunOk(s, e.pid);
    OwnProgress(s, e);
    var r' := t.runs[e.pid];
    if HasFile(s.runs[e.pid].pc) {
      HoldersOf(s, e.pid);
    }
    hide Holders, Step, Enabled, Inv, Places, HasFile;
    if HasFile(r'.pc) {
      OwnPlaces(s, e);
      HoldersArePlaces(t, r'.fd, Places(r'));
    }
    assert PastWrite(r'.pc) ==> HasFile(r'.pc);
  }

  /** Apart from its names, what a run's own step owes it. */
  lemma OwnProgress(s: Directory, e: Event)
    requires Enabled(s, e) && RunOk(s, e.pid)
    ensures var t := Step(s, e);
      e.pid in t.runs
      && var r := t.runs[e.pid];
         && (HasFile(r.pc) ==> r.fd in t.disk)
         && (PastWrite(r.pc) ==> t.disk[r.fd] == Artefact(e.pid))
         && (HasConflictName(r.pc) ==> Conflict(r.keep) in t.names)
         && (r.pc in {LinkRefused, Reserved, Kept} ==> Dest in t.names)
  {
    hide Holders, Places;
  }

  /** After its own step, a run's file is reachable under exactly the paths of its new place. */
  lemma OwnPlaces(s: Directory, e: Event)
    requires Enabled(s, e) && e.pid in Step(s, e).runs && HasFile(Step(s, e).runs[e.pid].pc)
    requires forall path :: path in s.names ==> s.names[path] in s.disk
    requires var r := s.runs[e.pid];
      HasFile(r.pc) ==>
        r.fd in s.disk && forall path :: (path in s.names && s.names[path] == r.fd) <==> path in Places(r)
    ensures var t := Step(s, e);
      var r := t.runs[e.pid];
      forall path :: (path in t.names && t.names[path] == r.fd) <==> path in Places(r)
  {
    match e.act
    case CheckDest =>
    case MakeTemp(name, inode) =>
    case WriteSome =>
    case FinishWrite =>
    case LinkDest =>
    case UnlinkTemp =>
    case MakeConflict(name, inode) =>
    case RenameToConflict =>
    case Crash =>
  }

  /** A run's file is the one it had before the step, or one just made by mkstemp. */
  lemma FileAfterStep(s: Directory, e: Event, p: Pid)
    requires Enabled(s, e) && p in s.runs && HasFile(Step(s, e).runs[p].pc)
    ensures var fd := Step(s, e).runs[p].fd;
      if p == e.pid && e.act.MakeTemp? then fd !in s.disk else HasFile(s.runs[p].pc) && fd == s.runs[p].fd
  {
  }

  lemma NameAfterStep(s: Directory, e: Event, p: Pid)
    requires Enabled(s, e) && p in s.runs && HasConflictName(Step(s, e).runs[p].pc)
    ensures var name := Step(s, e).runs[p].keep;
      if p == e.pid && e.act.MakeConflict? then Conflict(name) !in s.names
      else HasConflictName(s.runs[p].pc) && name == s.runs[p].keep
  {
  }

  lemma StepDistinct(s: Directory, e: Event, p: Pid, q: Pid)
    requires Inv(s) && Enabled(s, e) && p in s.runs && q in s.runs && p != q
    ensures var t := Step(s, e);
      && p in t.runs && q in t.runs
      && (HasFile(t.runs[p].pc) && HasFile(t.runs[q].pc) ==> t.runs[p].fd != t.runs[q].fd)
      && (HasConflictName(t.runs[p].pc) && HasConflictName(t.runs[q].pc) ==> t.runs[p].keep != t.runs[q].keep)
  {
    var t := Step(s, e);
    StepRuns(s, e);
    assert RunOk(s, p) && RunOk(s, q);
    hide Step, Holders, Enabled;
    if HasFile(t.runs[p].pc) && HasFile(t.runs[q].pc) {
      FileAfterStep(s, e, p);
      FileAfterStep(s, e, q);
    }
    if HasConflictName(t.runs[p].pc) && HasConflictName(t.runs[q].pc) {
      NameAfterStep(s, e, p);
      NameAfterStep(s, e, q);
    }
  }

  lemma StepNamesHaveFiles(s: Directory, e: Event, path: Path)
    requires Inv(s) && Enabled(s, e) && path in Step(s, e).names
    ensures Step(s, e).names[path] in Step(s, e).disk
  {
    assert RunOk(s, e.pid);
    hide Holders, RunOk;
  }

  /** A complete artefact on disk was there before, or its run has just finished writing. */
  lemma ArtefactAfterStep(s: Directory, e: Event, i: Inode, p: Pid)
    requires Enabled(s, e) && i in Step(s, e).disk && Step(s, e).disk[i] == Artefact(p)
    ensures if i in s.disk && s.disk[i] == Artefact(p) then true
            else p == e.pid && e.act == FinishWrite && i == s.runs[p].fd
  {
  }

  lemma PastWriteForGood(s: Directory, e: Event, p: Pid)
    requires Enabled(s, e) && p in s.runs
    requires PastWrite(s.runs[p].pc) || (p == e.pid && e.act == FinishWrite)
    ensures var t := Step(s, e); p in t.runs && PastWrite(t.runs[p].pc) && t.runs[p].fd == s.runs[p].fd
  {
  }

  lemma StepArtefacts(s: Directory, e: Event, i: Inode, p: Pid)
    requires Inv(s) && Enabled(s, e) && i in Step(s, e).disk && Step(s, e).disk[i] == Artefact(p)
    ensures var t := Step(s, e); p in t.runs && PastWrite(t.runs[p].pc) && t.runs[p].fd == i
  {
    assert e.pid in s.runs;
    hide Step, Enabled, RunOk, Holders, PastWrite;
    ArtefactAfterStep(s, e, i, p);
    PastWriteForGood(s, e, p);
  }

  /** Every step of every run keeps the invariant. */
  lemma StepInv(s: Directory, e: Event)
    requires Inv(s)
    ensures Inv(Step(s, e))
  {
    if Enabled(s, e) {
      var t := Step(s, e);
      assert e.pid in s.runs;
      StepRuns(s, e);
      hide Step, Enabled, RunOk, Holders, HasFile, PastWrite, HasConflictName;
      forall p | p in s.runs ensures RunOk(t, p) {
        if p == e.pid {
          StepOwn(s, e);
        } else {
          StepOther(s, e, p);
        }
      }
      forall p, q | p in s.runs && q in s.runs && p != q ensures
        && (HasFile(t.runs[p].pc) && HasFile(t.runs[q].pc) ==> t.runs[p].fd != t.runs[q].fd)
        && (HasConflictName(t.runs[p].pc) && HasConflictName(t.runs[q].pc) ==> t.runs[p].keep != t.runs[q].keep)
      {
        StepDistinct(s, e, p, q);
      }
      forall path | path in t.names ensures t.names[path] in t.disk {
        StepNamesHaveFiles(s, e, path);
      }
      forall i, p | i in t.disk && t.disk[i] == Artefact(p)
        ensures p in t.runs && PastWrite(t.runs[p].pc) && t.runs[p].fd == i
      {
        StepArtefacts(s, e, i, p);
      }
    }
  }

  lemma StepRuns(s: Directory, e: Event)
    ensures Step(s, e).runs.Keys == s.runs.Keys
  {
  }

  lemma {:induction false} BehaveInv(s: Directory, events: seq<Event>)
    requires Init(s)
    ensures Inv(Behave(s, events))
  {
    if |events| == 0 {
      InitInv(s);
    } else {
      BehaveInv(s, events[..|events| - 1]);
      StepInv(Behave(s, events[..|events| - 1]), events[|events| - 1]);
    }
  }

  // --- safety over every run ----------------------------------------------------------------

  /** The paths under which run p's complete artefact can be read. */
  function ArtefactPaths(s: Directory, p: Pid): set<Path>
    requires forall path :: path in s.names ==> s.names[path] in s.disk
  {
    set path | path in s.names && s.disk[s.names[path]] == Artefact(p)
  }

  /** The destination name still points to the same file with the same content. */
  ghost predicate SameDestination(s: Directory, t: Directory) {
    && Dest in s.names && Dest in t.names && t.names[Dest] == s.names[Dest]
    && s.names[Dest] in s.disk && s.names[Dest] in t.disk && t.disk[t.names[Dest]] == s.disk[s.names[Dest]]
  }

  lemma DestinationStep(s: Directory, e: Event)
    requires Inv(s) && Dest in s.names
    ensures SameDestination(s, Step(s, e))
  {
    if Enabled(s, e) && HasFile(s.runs[e.pid].pc) {
      HoldersOf(s, e.pid);
    }
  }

  /** Once the destination exists it never changes again, whatever any run does. */
  lemma {:induction false} DestinationImmutable(s0: Directory, events: seq<Event>, more: seq<Event>)
    requires Init(s0) && Dest in Behave(s0, events).names
    ensures SameDestination(Behave(s0, events), Behave(s0, events + more))
    decreases |more|
  {
    BehaveInv(s0, events);
    if |more| == 0 {
      assert events + more == events;
    } else {
      var n := |more| - 1;
      assert (events + more)[..|events + more| - 1] == events + more[..n];
      DestinationImmutable(s0, events, more[..n]);
      BehaveInv(s0, events + more[..n]);
      DestinationStep(Behave(s0, events + more[..n]), more[n]);
    }
  }

  /** At most one run is ever published, and none over a destination that was there before. */
  lemma AtMostOnePublished(s0: Directory, events: seq<Event>, p: Pid, q: Pid)
    requires Init(s0)
    requires var s := Behave(s0, events);
      p in s.runs && q in s.runs && Published(s.runs[p].pc) && Published(s.runs[q].pc)
    ensures p == q && Dest !in s0.names
  {
    var s := Behave(s0, events);
    BehaveInv(s0, events);
    HoldersOf(s, p);
    HoldersOf(s, q);
    assert s.names[Dest] == s.runs[p].fd == s.runs[q].fd;
    assert RunOk(s, p);
    assert [] + events == events;
    if Dest in s0.names {
      DestinationImmutable(s0, [], events);
    }
  }

  /** A run past its write, alive or crashed, always has its complete artefact on disk, under
      exactly the paths its progress says, and at one path once it has ended. */
  lemma ArtefactNeverLost(s0: Directory, events: seq<Event>, p: Pid)
    requires Init(s0) && p in Behave(s0, events).runs && PastWrite(Behave(s0, events).runs[p].pc)
    ensures Inv(Behave(s0, events))
    ensures var s := Behave(s0, events);
      ArtefactPaths(s, p) == Places(s.runs[p]) && Places(s.runs[p]) != {}
  {
    var s := Behave(s0, events);
    BehaveInv(s0, events);
    HoldersOf(s, p);
    assert RunOk(s, p);
    assert Temp(s.runs[p].tmp) in Places(s.runs[p]) || Dest in Places(s.runs[p])
        || Conflict(s.runs[p].keep) in Places(s.runs[p]);
    hide Behave;
    forall path ensures path in ArtefactPaths(s, p) <==> path in Places(s.runs[p]) {
    }
  }

  /** A run that ends leaves its artefact at exactly one path: the destination if it was
      published, its own conflict name otherwise. */
  lemma EndedRunHasOnePath(s0: Directory, events: seq<Event>, p: Pid)
    requires Init(s0) && p in Behave(s0, events).runs
    requires Behave(s0, events).runs[p].pc in {Finished, Kept}
    ensures Inv(Behave(s0, events))
    ensures var s := Behave(s0, events);
      ArtefactPaths(s, p) == {if s.runs[p].pc == Finished then Dest else Conflict(s.runs[p].keep)}
  {
    ArtefactNeverLost(s0, events, p);
  }

  lemma SameRunAfter(s: Directory, e: Event, p: Pid)
    requires p in s.runs && e.pid != p
    ensures p in Step(s, e).runs && Step(s, e).runs[p] == s.runs[p]
  {
  }

  /** No other run's step overwrites or removes it. */
  lemma OthersNeverOverwrite(s0: Directory, events: seq<Event>, e: Event, p: Pid)
    requires Init(s0) && p in Behave(s0, events).runs && PastWrite(Behave(s0, events).runs[p].pc) && e.pid != p
    ensures Inv(Behave(s0, events)) && Inv(Behave(s0, events + [e]))
    ensures ArtefactPaths(Behave(s0, events + [e]), p) == ArtefactPaths(Behave(s0, events), p)
  {
    assert (events + [e])[..|events|] == events;
    var s := Behave(s0, events);
    assert Behave(s0, events + [e]) == Step(s, e);
    ArtefactNeverLost(s0, events, p);
    SameRunAfter(s, e, p);
    ArtefactNeverLost(s0, events + [e], p);
    hide Behave, Step, Inv, ArtefactPaths;
  }

  ghost predicate SomePublished(s: Directory) {
    exists q :: q in s.runs && Published(s.runs[q].pc) && Dest in s.names && s.names[Dest] == s.runs[q].fd
  }

  lemma {:induction false} DestinationComesFromARun(s0: Directory, events: seq<Event>)
    requires Init(s0) && Dest !in s0.names && Dest in Behave(s0, events).names
    ensures SomePublished(Behave(s0, events))
  {
    var n := |events| - 1;
    BehaveInv(s0, events[..n]);
    if Dest in Behave(s0, events[..n]).names {
      DestinationComesFromARun(s0, events[..n]);
    }
    PublishedStep(Behave(s0, events[..n]), events[n]);
  }

  lemma PublishedStep(s: Directory, e: Event)
    requires Inv(s) && (Dest in s.names ==> SomePublished(s)) && Dest in Step(s, e).names
    ensures SomePublished(Step(s, e))
  {
    hide RunOk, Holders, Places, Inv;
    if Dest in s.names {
      DestinationStep(s, e);
      var q :| q in s.runs && Published(s.runs[q].pc) && s.names[Dest] == s.runs[q].fd;
      PublishedForGood(s, e, q);
    } else {
      LinkNamesOwnFile(s, e);
    }
  }

  lemma PublishedForGood(s: Directory, e: Event, q: Pid)
    requires q in s.runs && Published(s.runs[q].pc)
    ensures var t := Step(s, e); q in t.runs && Published(t.runs[q].pc) && t.runs[q].fd == s.runs[q].fd
  {
  }

  lemma LinkNamesOwnFile(s: Directory, e: Event)
    requires Inv(s) && Dest !in s.names && Dest in Step(s, e).names
    ensures SomePublished(Step(s, e))
  {
    var t := Step(s, e);
    assert e.act == LinkDest;
    HoldersOf(s, e.pid);
    assert e.pid in t.runs && t.runs[e.pid].pc == Linked && t.names[Dest] == t.runs[e.pid].fd;
  }

  /** The pre-open guard: over a directory that holds the destination already, no run gets past
      the check, so none of them opens the holdout. */
  lemma {:induction false} GuardRefusesAll(s0: Directory, events: seq<Event>)
    requires Init(s0) && Dest in s0.names
    ensures var s := Behave(s0, events);
      Dest in s.names && forall p :: p in s.runs ==> s.runs[p].pc in {Start, Refused}
  {
    if |events| > 0 {
      var n := |events| - 1;
      GuardRefusesAll(s0, events[..n]);
      RefusedStep(Behave(s0, events[..n]), events[n]);
    }
  }

  lemma RefusedStep(s: Directory, e: Event)
    requires Dest in s.names && forall p :: p in s.runs ==> s.runs[p].pc in {Start, Refused}
    ensures var t := Step(s, e);
      Dest in t.names && forall p :: p in t.runs ==> t.runs[p].pc in {Start, Refused}
  {
  }

  /** A run is turned away to a conflict name only by another run's publication. */
  lemma ConflictMeansPublished(s0: Directory, events: seq<Event>, p: Pid)
    requires Init(s0) && p in Behave(s0, events).runs
    requires Behave(s0, events).runs[p].pc in {LinkRefused, Reserved, Kept}
    ensures Dest !in s0.names
    ensures exists q :: q in Behave(s0, events).runs && q != p && Published(Behave(s0, events).runs[q].pc)
  {
    if Dest in s0.names {
      GuardRefusesAll(s0, events);
    }
    BehaveInv(s0, events);
    assert RunOk(Behave(s0, events), p);
    DestinationComesFromARun(s0, events);
  }
}
