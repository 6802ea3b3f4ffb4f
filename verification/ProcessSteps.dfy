// What the steps of the supervision protocol lead to: the guardian always has a way on, the
// gated child is released or gives up, and how a domain ends
// (apps/openape-pods/native/pods-helper.c:193-284).
module ProcessSteps {
  import opened Wrappers
  import opened ProcessDomain

  // ---------------------------------------------------------------- the kernel

  // Any process but the guardian may die at any time, and any unused id may be taken by a
  // new process, in any group; a command may fork into its own group.
  lemma EnvironmentIsFree(w: World, pid: Pid, birth: nat, group: Pid)
    ensures Live(w, pid) && w.procs[pid].stage != Guarding ==>
              Can(w, Exits(pid)) && !Live(Apply(w, Exits(pid)), pid)
    ensures pid !in w.procs ==>
              && Can(w, Spawns(pid, birth, group))
              && Apply(w, Spawns(pid, birth, group)).procs == w.procs[pid := Process(birth, group, false, Foreign)]
    ensures forall parent :: pid !in w.procs && Live(w, parent) && w.procs[parent].stage == Command ==>
              && Can(w, CommandForks(parent, pid, birth))
              && Apply(w, CommandForks(parent, pid, birth)).procs
                 == w.procs[pid := Process(birth, w.procs[parent].group, false, Command)]
  {
  }

  // A dead process leaves the table at any time, except the child, which its living
  // guardian keeps until it has seen the group empty.
  lemma ReapedExactly(w: World, pid: Pid)
    ensures Can(w, Reaped(pid)) <==>
              && pid in w.procs && w.procs[pid].zombie
              && !(GuardianAlive(w) && w.child == Some(Identity(pid, w.procs[pid].birth))
                   && w.pc != Closing && w.pc != Finished)
    ensures Can(w, Reaped(pid)) ==> Apply(w, Reaped(pid)).procs == w.procs - {pid}
  {
  }

  // ---------------------------------------------------------------- the guardian

  lemma {:induction false} Unused(used: set<Pid>) returns (pid: Pid)
    ensures forall p :: p in used ==> p < pid
  {
    if used == {} {
      pid := 0;
    } else {
      var p :| p in used;
      pid := Unused(used - {p});
      assert forall q :: q in used ==> q == p || q in used - {p};
      if pid <= p { pid := p + 1; }
    }
  }

  // Until it has finished, a living guardian can go on, or waits for something that can
  // happen: the child's registration, or the end of the child's group. (The kernel gives no
  // new process the id of a group in use, so the guardian is not in that group.)
  lemma GuardianNeverStuck(w: World) returns (e: Event)
    requires Inv(w) && GuardianAlive(w) && !w.pc.Finished?
    requires w.pc.Ending? ==> w.procs[w.guardian.pid].group != w.child.value.pid
    ensures Can(w, e) && e != GuardianDies
    ensures || ByGuardian(e)
            || (w.pc.Awaiting? && !w.ready && e in {Setsid, WriteReady})
            || (w.pc.Ending? && e.Exits? && w.procs[e.pid].group == w.child.value.pid)
  {
    match w.pc
    case Starting => e := Publish;
    case Refusing => e := Publish;
    case Recording => e := Publish;
    case Closing => e := Publish;
    case Leasing => e := LeaseOpen;
    case Releasing => e := LeaseOpen;
    case Forking =>
      var pid := Unused(w.procs.Keys);
      e := Fork(pid, 0);
    case Awaiting =>
      e := if w.ready then SeeReady
           else if ChildAt(w, Forked) then Setsid
           else if ChildAt(w, Leader) then WriteReady
           else SeeReadyEof;
    case Identifying => e := Identify;
    case Opening => e := OpenGate;
    case Watching => e := Stop;
    case Ending(_) =>
      if GroupAlive(w, w.child.value.pid) {
        var pid :| pid in w.procs && Live(w, pid) && w.procs[pid].group == w.child.value.pid;
        e := Exits(pid);
      } else {
        e := SeeGroupEmpty;
      }
  }

  // A lease that is lost at the first check closes the record without a child; after an
  // exit, a stop or a lease lost at the second check the guardian closes the record as soon
  // as the group is empty. After a failed setup it leaves the record open.
  lemma OrderlyEnd(w: World, e: Event)
    requires Inv(w) && Can(w, e) && w.child.Some? && !GroupAlive(w, w.child.value.pid)
    requires e in {SeeExit, Stop, SetupFailed} || (e == LeaseLost && w.pc == Releasing)
    ensures Can(Apply(w, e), SeeGroupEmpty)
    ensures var t := Apply(Apply(w, e), SeeGroupEmpty);
            if e == SetupFailed then !GuardianAlive(t) && t.file == w.file
            else
              && Can(t, Publish) && Apply(t, Publish).pc == Finished
              && Apply(t, Publish).file == Some(Record(w.guardian, w.child, true))
  {
  }

  lemma RefusedStart(w: World)
    requires Can(w, LeaseLost) && w.pc == Leasing
    ensures var t := Apply(w, LeaseLost);
            && Can(t, Publish) && Apply(t, Publish).pc == Finished && Apply(t, Publish).procs == w.procs
            && Apply(t, Publish).file == Some(Record(w.guardian, w.child, true))
  {
  }

  // A watching guardian sees the exit of its child, and only that.
  lemma ExitIsSeen(w: World)
    requires Inv(w) && GuardianAlive(w) && w.pc == Watching
    ensures w.child.Some? && (Can(w, SeeExit) <==> !SameLive(w, w.child.value))
  {
  }

  // ---------------------------------------------------------------- the child

  // The gated child goes on exactly when the token is there, and gives up exactly when it is
  // not and no living guardian can still open the gate.
  lemma GatedChild(w: World)
    requires w.child.Some? && Live(w, w.child.value.pid) && w.procs[w.child.value.pid].stage == Gated
    ensures Can(w, ReadGate) <==> w.token
    ensures Can(w, SeeGateEof) <==>
              !w.token && !(GuardianAlive(w) && w.pc in {Awaiting, Identifying, Recording, Releasing, Opening})
    ensures Can(w, SeeGateEof) ==> !Live(Apply(w, SeeGateEof), w.child.value.pid)
    ensures Can(w, ReadGate) ==>
              && Can(Apply(w, ReadGate), Exec)
              && CommandRunning(Apply(Apply(w, ReadGate), Exec)) && !Apply(w, ReadGate).token
  {
    if w.token {
      var t := Apply(Apply(w, ReadGate), Exec);
      var pid := w.child.value.pid;
      assert pid in t.procs && Live(t, pid) && t.procs[pid].stage == Command;
    }
  }
}
