/** That the publication protocol gets somewhere: no run is refused without cause, no run gets
    stuck, every step towards the end counts, and of the runs that end exactly one publishes. */
module PublishLive {
  import opened Publish

  // --- no refusal without a destination -------------------------------------------------------

  ghost predicate RefusedForCause(s: Directory) {
    forall p :: p in s.runs && s.runs[p].pc == Refused ==> Dest in s.names
  }

  lemma RefusalStep(s: Directory, e: Event)
    requires RefusedForCause(s)
    ensures RefusedForCause(Step(s, e))
  {
  }

  /** In every interleaving a refused run means that the destination is in the directory. */
  lemma {:induction false} RefusedMeansDestination(s0: Directory, events: seq<Event>)
    requires Init(s0)
    ensures RefusedForCause(Behave(s0, events))
  {
    if |events| > 0 {
      var n := |events| - 1;
      RefusedMeansDestination(s0, events[..n]);
      RefusalStep(Behave(s0, events[..n]), events[n]);
    }
  }

  // --- progress -------------------------------------------------------------------------------

  predicate Ended(pc: Pc) { pc == Refused || pc == Finished || pc == Kept }

  /** How many steps, other than rewriting its file, a run is away from its end at most. */
  function StepsLeft(pc: Pc): nat {
    match pc
    case Start => 7
    case Checked => 6
    case Named => 5
    case Writing => 5
    case Written => 4
    case LinkRefused => 2
    case Reserved => 1
    case Linked => 1
    case _ => 0
  }

  /** The step that takes a run on, with a name and a file for it to allocate. */
  function Next(pc: Pc, name: nat, inode: Inode): Act {
    match pc
    case Start => CheckDest
    case Checked => MakeTemp(name, inode)
    case Named => FinishWrite
    case Writing => FinishWrite
    case Written => LinkDest
    case Linked => UnlinkTemp
    case LinkRefused => MakeConflict(name, inode)
    case Reserved => RenameToConflict
    case _ => Crash
  }

  ghost predicate Bounds(n: nat, used: set<nat>) { forall i :: i in used ==> i < n }

  lemma {:induction false} FreshNumber(used: set<nat>) returns (n: nat)
    ensures Bounds(n, used)
  {
    if used == {} {
      n := 0;
    } else {
      var x :| x in used;
      var m := FreshNumber(used - {x});
      n := if m > x then m else x + 1;
      forall i | i in used ensures i < n {
        if i != x {
          assert i in used - {x};
        }
      }
    }
  }

  function Number(path: Path): nat {
    match path
    case Dest => 0
    case Temp(n) => n
    case Conflict(n) => n
  }

  /** There is always a name and a file for the allocator to return. */
  lemma FreshExists(s: Directory) returns (name: nat, inode: Inode)
    ensures Fresh(s, Temp(name), inode) && Fresh(s, Conflict(name), inode)
  {
    var numbers := set path | path in s.names :: Number(path);
    name := FreshNumber(numbers);
    inode := FreshNumber(s.disk.Keys);
    forall path | path in s.names ensures Number(path) < name {
      assert Number(path) in numbers;
    }
  }

  /** No step leads a run away from its end: only its own steps move it, and rewriting the file
      is the only one that may be repeated. */
  lemma StepsNeverAdded(s: Directory, e: Event, p: Pid)
    requires p in s.runs
    ensures var t := Step(s, e);
      && p in t.runs && StepsLeft(t.runs[p].pc) <= StepsLeft(s.runs[p].pc)
      && (e.pid != p ==> t.runs[p] == s.runs[p])
      && (Enabled(s, e) && e.pid == p && e.act != WriteSome && e.act != Crash ==>
            StepsLeft(t.runs[p].pc) < StepsLeft(s.runs[p].pc))
  {
  }

  lemma NextEnabled(s: Directory, p: Pid, name: nat, inode: Inode)
    requires Inv(s) && p in s.runs && s.runs[p].alive && !Ended(s.runs[p].pc)
    requires Fresh(s, Temp(name), inode) && Fresh(s, Conflict(name), inode)
    ensures Enabled(s, Event(p, Next(s.runs[p].pc, name, inode)))
  {
    if HasFile(s.runs[p].pc) {
      HoldersOf(s, p);
      assert Temp(s.runs[p].tmp) in Places(s.runs[p]);
    }
    hide Inv, Fresh;
  }

  lemma StaysAlive(s: Directory, e: Event)
    requires Enabled(s, e) && e.act != Crash
    ensures e.pid in Step(s, e).runs && Step(s, e).runs[e.pid].alive
  {
  }

  /** Progress: in every reachable state a live run that has not ended can take its next step,
      and that step brings it nearer to its end. */
  lemma CanStep(s0: Directory, events: seq<Event>, p: Pid) returns (act: Act)
    requires Init(s0) && p in Behave(s0, events).runs
    requires Behave(s0, events).runs[p].alive && !Ended(Behave(s0, events).runs[p].pc)
    ensures act != Crash && Enabled(Behave(s0, events), Event(p, act))
    ensures var s, t := Behave(s0, events), Step(Behave(s0, events), Event(p, act));
      p in t.runs && t.runs[p].alive && StepsLeft(t.runs[p].pc) < StepsLeft(s.runs[p].pc)
  {
    var s := Behave(s0, events);
    hide Behave, Inv, Fresh, Enabled, Step, Init, StepsLeft;
    BehaveInv(s0, events);
    var name, inode := FreshExists(s);
    act := Next(s.runs[p].pc, name, inode);
    NextEnabled(s, p, name, inode);
    StepsNeverAdded(s, Event(p, act), p);
    StaysAlive(s, Event(p, act));
  }

  // --- the outcome of runs that end -----------------------------------------------------------

  ghost predicate AllEnded(s: Directory) { forall p :: p in s.runs ==> Ended(s.runs[p].pc) }

  lemma EndedMeansDestination(s0: Directory, events: seq<Event>, p: Pid)
    requires Init(s0) && p in Behave(s0, events).runs && Ended(Behave(s0, events).runs[p].pc)
    ensures Dest in Behave(s0, events).names
  {
    var s := Behave(s0, events);
    BehaveInv(s0, events);
    RefusedMeansDestination(s0, events);
    if s.runs[p].pc == Finished {
      HoldersOf(s, p);
      assert Dest in Places(s.runs[p]);
    }
    assert RunOk(s, p);
    hide Behave, Inv, Holders, Init;
  }

  lemma SomeFinishes(s0: Directory, events: seq<Event>) returns (winner: Pid)
    requires Init(s0) && Dest !in s0.names && s0.runs != map[] && AllEnded(Behave(s0, events))
    ensures winner in Behave(s0, events).runs && Behave(s0, events).runs[winner].pc == Finished
  {
    hide Behave, Init;
    SameRuns(s0, events);
    var some :| some in s0.runs;
    assert some in s0.runs.Keys;
    EndedMeansDestination(s0, events, some);
    DestinationComesFromARun(s0, events);
    var s := Behave(s0, events);
    winner :| winner in s.runs && Published(s.runs[winner].pc);
  }

  /** How a run that was not published has ended. */
  ghost predicate TurnedAway(s: Directory, p: Pid)
    requires Inv(s) && p in s.runs
  {
    s.runs[p].pc == Refused || (s.runs[p].pc == Kept && ArtefactPaths(s, p) == {Conflict(s.runs[p].keep)})
  }

  lemma LoserTurnedAway(s0: Directory, events: seq<Event>, winner: Pid, p: Pid)
    requires Init(s0) && Inv(Behave(s0, events))
    requires var s := Behave(s0, events);
      && winner in s.runs && s.runs[winner].pc == Finished
      && p in s.runs && p != winner && Ended(s.runs[p].pc)
    ensures TurnedAway(Behave(s0, events), p)
  {
    var s := Behave(s0, events);
    hide Behave, Inv, ArtefactPaths, Init;
    if s.runs[p].pc == Finished {
      AtMostOnePublished(s0, events, p, winner);
    } else if s.runs[p].pc == Kept {
      EndedRunHasOnePath(s0, events, p);
    }
  }

  /** When all runs have come to their ends over a directory without the destination, exactly one
      is published, with its artefact at the destination, and every other one was refused or has
      its artefact kept under its own conflict name. */
  lemma ExactlyOnePublishes(s0: Directory, events: seq<Event>) returns (winner: Pid)
    requires Init(s0) && Dest !in s0.names && s0.runs != map[] && AllEnded(Behave(s0, events))
    ensures Inv(Behave(s0, events))
    ensures var s := Behave(s0, events);
      && winner in s.runs && s.runs[winner].pc == Finished && ArtefactPaths(s, winner) == {Dest}
      && forall p :: p in s.runs && p != winner ==> TurnedAway(s, p)
  {
    hide *;
    winner := SomeFinishes(s0, events);
    EndedRunHasOnePath(s0, events, winner);
    BehaveInv(s0, events);
    AllOthersTurnedAway(s0, events, winner);
  }

  lemma AllOthersTurnedAway(s0: Directory, events: seq<Event>, winner: Pid)
    requires Init(s0) && Inv(Behave(s0, events)) && AllEnded(Behave(s0, events))
    requires winner in Behave(s0, events).runs && Behave(s0, events).runs[winner].pc == Finished
    ensures forall p :: p in Behave(s0, events).runs && p != winner ==> TurnedAway(Behave(s0, events), p)
  {
    hide Behave, Inv, Init, TurnedAway;
    forall p | p in Behave(s0, events).runs && p != winner ensures TurnedAway(Behave(s0, events), p) {
      LoserTurnedAway(s0, events, winner, p);
    }
  }

  lemma {:induction false} SameRuns(s0: Directory, events: seq<Event>)
    ensures Behave(s0, events).runs.Keys == s0.runs.Keys
  {
    if |events| > 0 {
      var n := |events| - 1;
      SameRuns(s0, events[..n]);
      StepRuns(Behave(s0, events[..n]), events[n]);
    }
  }

  // --- a run on its own -----------------------------------------------------------------------

  ghost predicate OnlyRun(events: seq<Event>, p: Pid) {
    forall k :: 0 <= k < |events| ==> events[k].pid == p && events[k].act != Crash
  }

  lemma {:induction false} OthersWait(s0: Directory, events: seq<Event>, p: Pid, q: Pid)
    requires OnlyRun(events, p) && q in s0.runs && q != p
    ensures q in Behave(s0, events).runs && Behave(s0, events).runs[q] == s0.runs[q]
  {
    if |events| > 0 {
      var n := |events| - 1;
      OthersWait(s0, events[..n], p, q);
      StepsNeverAdded(Behave(s0, events[..n]), events[n], q);
    }
  }

  /** Stepped on its own to its end, over a directory without the destination, a run publishes:
      the destination holds its artefact. */
  lemma AloneItPublishes(s0: Directory, events: seq<Event>, p: Pid)
    requires Init(s0) && Dest !in s0.names && p in s0.runs && OnlyRun(events, p)
    requires p in Behave(s0, events).runs && Ended(Behave(s0, events).runs[p].pc)
    ensures var s := Behave(s0, events);
      && s.runs[p].pc == Finished
      && Dest in s.names && s.names[Dest] in s.disk && s.disk[s.names[Dest]] == Artefact(p)
  {
    var s := Behave(s0, events);
    assert forall q :: q in s0.runs ==> s0.runs[q].pc == Start;
    hide Behave, Inv, Init;
    EndedMeansDestination(s0, events, p);
    DestinationComesFromARun(s0, events);
    var q :| q in s.runs && Published(s.runs[q].pc) && Dest in s.names && s.names[Dest] == s.runs[q].fd;
    SameRuns(s0, events);
    assert q in s0.runs.Keys;
    if q != p {
      OthersWait(s0, events, p, q);
    }
    BehaveInv(s0, events);
    CompleteFile(s, p);
  }

  lemma CompleteFile(s: Directory, p: Pid)
    requires Inv(s) && p in s.runs && PastWrite(s.runs[p].pc)
    ensures s.runs[p].fd in s.disk && s.disk[s.runs[p].fd] == Artefact(p)
  {
    assert RunOk(s, p);
  }

  /** And on its own it does get there: from any reachable state of a live run, its own steps lead
      to its end. */
  lemma {:induction false} GetsToItsEnd(s0: Directory, events: seq<Event>, p: Pid) returns (more: seq<Event>)
    requires Init(s0) && p in Behave(s0, events).runs && Behave(s0, events).runs[p].alive
    ensures OnlyRun(more, p) && |more| <= 7
    ensures p in Behave(s0, events + more).runs && Ended(Behave(s0, events + more).runs[p].pc)
    ensures |more| <= StepsLeft(Behave(s0, events).runs[p].pc)
    decreases StepsLeft(Behave(s0, events).runs[p].pc)
  {
    hide Init, Step, Enabled;
    if Ended(Behave(s0, events).runs[p].pc) {
      more := [];
      assert events + more == events;
    } else {
      var act := CanStep(s0, events, p);
      var e := Event(p, act);
      assert (events + [e])[..|events|] == events;
      assert Behave(s0, events + [e]) == Step(Behave(s0, events), e);
      var rest := GetsToItsEnd(s0, events + [e], p);
      more := [e] + rest;
      assert events + more == (events + [e]) + rest;
    }
  }
}
