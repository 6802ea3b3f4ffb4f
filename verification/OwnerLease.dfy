// The lease pipe from the owner to the guardian, and what a missing registration says once the
// owner is gone (apps/openape-pods/native/pods-helper.c:181-190,
// apps/openape-pods/src/worker/recovery/domains.ts:22-40).
module OwnerLease {
  import opened Wrappers
  import opened ProcessDomain

  // What one lease check reads at most.
  const LEASE_READ: nat := 128

  // The protocol's world, whether the owner still lives, and the heartbeats it has sent that
  // the guardian has not read.
  datatype Leased = Leased(world: World, owner: bool, beats: nat)

  datatype Step =
    | Inner(event: Event)
    | Beat      // the owner sends a heartbeat
    | OwnerDies
    | Listen    // the watching guardian reads heartbeats (lines 259-266)

  // `lease_open`: heartbeats are waiting, or nothing is and the pipe is not hung up.
  predicate LeaseIsOpen(s: Leased) {
    s.beats > 0 || s.owner
  }

  function Rest(beats: nat): nat {
    if beats > LEASE_READ then beats - LEASE_READ else 0
  }

  predicate CanStep(s: Leased, step: Step) {
    match step
    case Inner(e) => Can(s.world, e) && (e.LeaseOpen? ==> LeaseIsOpen(s)) && (e.LeaseLost? ==> !LeaseIsOpen(s))
    case Beat => s.owner
    case OwnerDies => s.owner
    case Listen => GuardianAlive(s.world) && s.world.pc.Watching?
  }

  function Do(s: Leased, step: Step): Leased
    requires CanStep(s, step)
  {
    match step
    case Inner(e) => Leased(Apply(s.world, e), s.owner, if e.LeaseOpen? || e.LeaseLost? then Rest(s.beats) else s.beats)
    case Beat => s.(beats := s.beats + 1)
    case OwnerDies => s.(owner := false)
    case Listen => s.(beats := Rest(s.beats))
  }

  ghost predicate NextLeased(s: Leased, t: Leased) {
    exists step :: CanStep(s, step) && t == Do(s, step)
  }

  ghost predicate IsLeasedRun(run: seq<Leased>) {
    && |run| > 0 && Init(run[0].world)
    && forall i {:trigger run[i]} :: 0 < i < |run| ==> NextLeased(run[i - 1], run[i])
  }

  function Worlds(run: seq<Leased>): (worlds: seq<World>)
    ensures |worlds| == |run| && forall i :: 0 <= i < |run| ==> worlds[i] == run[i].world
  {
    seq(|run|, i requires 0 <= i < |run| => run[i].world)
  }

  // Without the lease these are the runs of the protocol, so everything proved of them holds.
  lemma WorldsAreRun(run: seq<Leased>)
    requires IsLeasedRun(run)
    ensures IsRun(Worlds(run))
  {
    hide Can, Apply, Init, GuardianAlive;
    var worlds := Worlds(run);
    forall i | 0 < i < |worlds| ensures Next(worlds[i - 1], worlds[i]) {
      var s, t := run[i - 1], run[i];
      assert NextLeased(s, t);
      var step :| CanStep(s, step) && t == Do(s, step);
      assert step.Inner? ==> Can(s.world, step.event) && t.world == Apply(s.world, step.event);
    }
  }

  // A lease check has exactly one answer: open if heartbeats wait or the owner lives. Either
  // answer reads the waiting heartbeats, 128 of them at most.
  lemma LeaseCheckExactly(s: Leased)
    requires GuardianAlive(s.world) && (s.world.pc == Leasing || s.world.pc == Releasing)
    ensures CanStep(s, Inner(LeaseOpen)) <==> s.owner || s.beats > 0
    ensures CanStep(s, Inner(LeaseLost)) <==> !s.owner && s.beats == 0
    ensures forall e :: e in {LeaseOpen, LeaseLost} && CanStep(s, Inner(e)) ==>
              var t := Do(s, Inner(e));
              && t.owner == s.owner && t.world == Apply(s.world, e)
              && t.beats == if s.beats >= 128 then s.beats - 128 else 0
  {
  }

  // The owner sends while it lives, and the watching guardian reads 128 heartbeats at most.
  lemma HeartbeatsExactly(s: Leased)
    ensures CanStep(s, Beat) <==> s.owner
    ensures CanStep(s, OwnerDies) <==> s.owner
    ensures CanStep(s, Listen) <==> GuardianAlive(s.world) && s.world.pc == Watching
    ensures s.owner ==> Do(s, Beat) == Leased(s.world, true, s.beats + 1)
                        && Do(s, OwnerDies) == Leased(s.world, false, s.beats)
    ensures CanStep(s, Listen) ==>
              Do(s, Listen) == Leased(s.world, s.owner, if s.beats >= 128 then s.beats - 128 else 0)
  {
  }

  // The owner is gone and too few heartbeats are left to pass both lease checks.
  ghost predicate Fenced(s: Leased) {
    var pc := s.world.pc;
    && !s.owner && !s.world.gateOpened
    && (pc.Starting? || pc.Leasing? ==> s.beats <= LEASE_READ)
    && (pc.Forking? || pc.Awaiting? || pc.Identifying? || pc.Recording? || pc.Releasing? ==> s.beats == 0)
    && !pc.Opening? && !pc.Watching?
  }

  lemma FencedStays(s: Leased, t: Leased)
    requires Fenced(s) && NextLeased(s, t)
    ensures Fenced(t)
  {
    var step :| CanStep(s, step) && t == Do(s, step);
    if step.Inner? { FencedEvent(s, step.event); }
  }

  lemma FencedEvent(s: Leased, e: Event)
    requires Fenced(s) && CanStep(s, Inner(e))
    ensures Fenced(Do(s, Inner(e)))
  {
    hide GuardianAlive, ChildAt, Live, SameLive, GroupAlive, HeldByGuardian;
  }

  lemma {:induction false} FencedForGood(run: seq<Leased>, i: nat, j: nat)
    requires IsLeasedRun(run) && i <= j < |run| && Fenced(run[i])
    ensures Fenced(run[j])
    decreases j - i
  {
    hide Fenced, NextLeased, Init;
    if i < j {
      FencedForGood(run, i, j - 1);
      assert NextLeased(run[j - 1], run[j]);
      FencedStays(run[j - 1], run[j]);
    }
  }

  // A registration that is missing after the owner died, with no more unread heartbeats than
  // one lease check consumes, means that the command never runs, although the guardian may
  // be alive and still fork.
  lemma MissingAfterOwnerIsFinal(run: seq<Leased>, i: nat)
    requires IsLeasedRun(run) && i < |run|
    requires run[i].world.file.None? && !run[i].owner && run[i].beats <= LEASE_READ
    ensures forall j :: i <= j < |run| ==> !CommandRunning(run[j].world)
  {
    var worlds := Worlds(run);
    WorldsAreRun(run);
    RunKeepsInv(worlds, i);
    assert Fenced(run[i]) by { MissingIsStarting(run[i].world); }
    forall j | i <= j < |run| ensures !CommandRunning(run[j].world) {
      FencedForGood(run, i, j);
      RunKeepsInv(worlds, j);
      hide IsLeasedRun, IsRun;
    }
  }

  lemma MissingIsStarting(w: World)
    requires Inv(w) && w.file.None?
    ensures w.pc.Starting? && !w.gateOpened
  {
  }

  // ---------------------------------------------------------------- what can still happen

  // A run that goes on from a state.
  ghost predicate GoesOn(s: Leased, more: seq<Leased>) {
    && |more| > 0 && more[0] == s
    && forall i {:trigger more[i]} :: 0 < i < |more| ==> NextLeased(more[i - 1], more[i])
  }

  ghost predicate CanStillRun(s: Leased) {
    exists more: seq<Leased> :: GoesOn(s, more) && CommandRunning(more[|more| - 1].world)
  }

  // The command can run although the owner is gone by then.
  ghost predicate CanOutliveOwner(s: Leased) {
    exists more: seq<Leased> :: GoesOn(s, more) && CommandRunning(more[|more| - 1].world) && !more[|more| - 1].owner
  }

  lemma GoOn(s: Leased, step: Step, more: seq<Leased>)
    requires CanStep(s, step) && GoesOn(Do(s, step), more)
    ensures GoesOn(s, [s] + more) && ([s] + more)[|more|] == more[|more| - 1]
  {
    var all := [s] + more;
    forall i | 0 < i < |all| ensures NextLeased(all[i - 1], all[i]) {
      if i == 1 { assert all[1] == Do(s, step); } else { assert all[i] == more[i - 1] && all[i - 1] == more[i - 2]; }
    }
  }

  lemma OutlivesBefore(s: Leased, step: Step)
    requires CanStep(s, step) && CanOutliveOwner(Do(s, step))
    ensures CanOutliveOwner(s)
  {
    hide CanStep, Do, NextLeased, CommandRunning;
    var more: seq<Leased> :|
      GoesOn(Do(s, step), more) && CommandRunning(more[|more| - 1].world) && !more[|more| - 1].owner;
    GoOn(s, step, more);
  }

  // The events that take a guardian before its first record to the running command.
  function StartEvent(pid: Pid, birth: nat, t: nat): Event {
    match t
    case 0 => Publish
    case 1 => LeaseOpen
    case 2 => Fork(pid, birth)
    case 3 => Setsid
    case 4 => WriteReady
    case 5 => SeeReady
    case 6 => Identify
    case 7 => Publish
    case 8 => LeaseOpen
    case 9 => OpenGate
    case 10 => ReadGate
    case _ => Exec
  }

  // Where these events have led after t steps.
  ghost predicate At(w: World, pid: Pid, birth: nat, t: nat) {
    && GuardianAlive(w) && w.guardian.pid != pid
    && (t <= 2 ==> pid !in w.procs)
    && (t > 2 ==> pid in w.procs && w.procs[pid].birth == birth && !w.procs[pid].zombie
                  && w.child == Some(Identity(pid, birth)))
    && match t
       case 0 => w.pc.Starting?
       case 1 => w.pc.Leasing?
       case 2 => w.pc.Forking?
       case 3 => w.pc.Awaiting? && w.procs[pid].stage == Forked
       case 4 => w.pc.Awaiting? && w.procs[pid].stage == Leader
       case 5 => w.pc.Awaiting? && w.procs[pid].stage == Gated && w.ready
       case 6 => w.pc.Identifying? && w.procs[pid].stage == Gated
       case 7 => w.pc.Recording? && w.procs[pid].stage == Gated
       case 8 => w.pc.Releasing? && w.procs[pid].stage == Gated
       case 9 => w.pc.Opening? && w.procs[pid].stage == Gated
       case 10 => w.procs[pid].stage == Gated && w.token
       case 11 => w.procs[pid].stage == ProcessDomain.Approved
       case _ => w.procs[pid].stage == Command
  }

  lemma StartSteps(w: World, pid: Pid, birth: nat, t: nat)
    requires t < 12 && At(w, pid, birth, t)
    ensures Can(w, StartEvent(pid, birth, t)) && At(Apply(w, StartEvent(pid, birth, t)), pid, birth, t + 1)
  {
  }

  // The lease is open at the first check, and what is left keeps it open at the second.
  predicate Leases(s: Leased, t: nat) {
    || s.owner
    || (t <= 1 && s.beats > LEASE_READ)
    || (1 < t <= 8 && s.beats > 0)
    || t > 8
  }

  lemma {:induction false} StartGoesOn(s: Leased, pid: Pid, birth: nat, t: nat)
    requires t <= 12 && At(s.world, pid, birth, t) && Leases(s, t)
    ensures CanOutliveOwner(s)
    decreases 12 - t, s.owner
  {
    if t < 12 {
      var e := StartEvent(pid, birth, t);
      StartSteps(s.world, pid, birth, t);
      hide At, Can, Apply;
      StartGoesOn(Do(s, Inner(e)), pid, birth, t + 1);
      OutlivesBefore(s, Inner(e));
    } else if s.owner {
      StartGoesOn(Do(s, OwnerDies), pid, birth, t);
      OutlivesBefore(s, OwnerDies);
    } else {
      assert Live(s.world, pid) && s.world.procs[pid].stage == Command;
      assert GoesOn(s, [s]);
    }
  }

  lemma {:induction false} SomeFreshPid(pids: set<Pid>) returns (pid: Pid)
    ensures forall p :: p in pids ==> p < pid
    decreases pids
  {
    pid := 0;
    if pids != {} {
      var p :| p in pids;
      pid := SomeFreshPid(pids - {p});
      if pid <= p { pid := p + 1; }
      assert forall q :: q in pids ==> q == p || q in pids - {p};
    }
  }

  // A guardian that has not registered yet can still start the command while the owner lives
  // or more heartbeats are left than one lease check reads, and the owner can be gone by then.
  lemma StillRuns(s: Leased)
    requires Inv(s.world) && s.world.file.None? && GuardianAlive(s.world) && (s.owner || s.beats > LEASE_READ)
    ensures CanOutliveOwner(s)
  {
    var pid := SomeFreshPid(s.world.procs.Keys);
    MissingIsStarting(s.world);
    StartGoesOn(s, pid, 0, 0);
  }

  // What follows a state of a run is a run.
  lemma RunGoesOn(run: seq<Leased>, i: nat, more: seq<Leased>)
    requires IsLeasedRun(run) && i < |run| && GoesOn(run[i], more)
    ensures IsLeasedRun(run[..i] + more) && (run[..i] + more)[i] == run[i]
    ensures (run[..i] + more)[i + |more| - 1] == more[|more| - 1]
  {
    hide NextLeased, Init;
    var all := run[..i] + more;
    forall j | 0 < j < |all| ensures NextLeased(all[j - 1], all[j]) {
      if j < i {
        assert all[j] == run[j] && all[j - 1] == run[j - 1];
      } else if j == i {
        assert all[j] == run[j] && all[j - 1] == run[j - 1];
      } else {
        assert all[j] == more[j - i] && all[j - 1] == more[j - i - 1];
      }
    }
  }

  // A guardian that died before it registered never starts the command.
  lemma DeadUnregisteredIsFinal(run: seq<Leased>, i: nat)
    requires IsLeasedRun(run) && i < |run| && run[i].world.file.None? && !GuardianAlive(run[i].world)
    ensures forall j :: i <= j < |run| ==> !CommandRunning(run[j].world)
  {
    var worlds := Worlds(run);
    WorldsAreRun(run);
    RunKeepsInv(worlds, i);
    MissingIsStarting(run[i].world);
    FinalIsQuiet(worlds, i);
    forall j | i <= j < |run| ensures !CommandRunning(run[j].world) { assert !CommandRunning(worlds[j]); }
  }

  // What a missing registration says, exactly: the command never runs, in whatever way the
  // run goes on, if and only if the guardian is dead, or the owner is gone and has left no
  // more heartbeats than one lease check reads. Otherwise it can also run after the owner
  // was found gone.
  lemma MissingSaysExactly(run: seq<Leased>, i: nat)
    requires IsLeasedRun(run) && i < |run| && run[i].world.file.None?
    ensures var s := run[i];
            && (CanStillRun(s) <==> GuardianAlive(s.world) && (s.owner || s.beats > 128))
            && (CanOutliveOwner(s) <==> GuardianAlive(s.world) && (s.owner || s.beats > 128))
  {
    var s := run[i];
    WorldsAreRun(run);
    RunKeepsInv(Worlds(run), i);
    hide IsLeasedRun, NextLeased, Inv, CommandRunning, GuardianAlive, IsRun;
    if GuardianAlive(s.world) && (s.owner || s.beats > LEASE_READ) {
      StillRuns(s);
    } else if more: seq<Leased> :| GoesOn(s, more) && CommandRunning(more[|more| - 1].world) {
      RunGoesOn(run, i, more);
      var all := run[..i] + more;
      if !GuardianAlive(s.world) { DeadUnregisteredIsFinal(all, i); } else { MissingAfterOwnerIsFinal(all, i); }
      assert false;
    }
  }

  // ---------------------------------------------------------------- both conditions are needed

  // The beginning of EarlyDeath, in which the guardian then lives on.
  function Opened(t: nat): World {
    var full := Some(Record(Identity(1, 10), Some(Identity(2, 20)), false));
    var child := Process(20, 2, false, if t == 11 then ProcessDomain.Approved else Command);
    if t <= 10 then EarlyDeath(t)
    else Scene(full, map[2 := child], Watching, true, true, false, true, false)
  }

  function OpenedEvent(t: nat): Event {
    if t < 10 then EarlyDeathEvent(t) else if t == 10 then ReadGate else Exec
  }

  lemma OpenedBegins(t: nat)
    requires t < 6
    ensures Can(Opened(t), OpenedEvent(t)) && Opened(t + 1) == Apply(Opened(t), OpenedEvent(t))
  {
  }

  lemma OpenedEnds(t: nat)
    requires 6 <= t < 12
    ensures Can(Opened(t), OpenedEvent(t)) && Opened(t + 1) == Apply(Opened(t), OpenedEvent(t))
  {
  }

  lemma OpenedSteps(t: nat)
    requires t < 12
    ensures Can(Opened(t), OpenedEvent(t)) && Opened(t + 1) == Apply(Opened(t), OpenedEvent(t))
  {
    hide *;
    if t < 6 { OpenedBegins(t); } else { OpenedEnds(t); }
  }

  lemma OpenedScenes()
    ensures Init(Opened(0)) && Opened(0).file.None? && CommandRunning(Opened(12))
    ensures forall t :: 0 <= t < 12 ==> !OpenedEvent(t).LeaseLost? && (OpenedEvent(t).LeaseOpen? <==> t == 1 || t == 8)
  {
    assert Live(Opened(12), 2);
  }

  // One heartbeat more than a lease check reads lets the command run although the owner is
  // gone and nothing is registered.
  function Buffered(t: nat): Leased {
    Leased(Opened(t), false, if t <= 1 then LEASE_READ + 1 else if t <= 8 then 1 else 0)
  }

  lemma BufferedHeartbeatsOpenTheGate()
    ensures var run := seq(13, (t: nat) => Buffered(t));
            && IsLeasedRun(run)
            && run[0].world.file.None? && !run[0].owner && run[0].beats == LEASE_READ + 1
            && CommandRunning(run[12].world)
  {
    hide Can, Apply, Init, CommandRunning, Opened, OpenedEvent;
    OpenedScenes();
    var run := seq(13, (t: nat) => Buffered(t));
    forall i | 0 < i < |run| ensures NextLeased(run[i - 1], run[i]) {
      OpenedSteps(i - 1);
      var step := Inner(OpenedEvent(i - 1));
      assert CanStep(run[i - 1], step) && run[i] == Do(run[i - 1], step);
    }
  }

  // The owner dies after the gate was opened.
  function LateDeath(t: nat): Leased {
    if t <= 10 then Leased(Opened(t), true, 0) else Leased(Opened(t - 1), false, 0)
  }

  function LateDeathStep(t: nat): Step {
    if t < 10 then Inner(OpenedEvent(t)) else if t == 10 then OwnerDies else Inner(OpenedEvent(t - 1))
  }

  // The caller reads the registration first and then looks for the owner: a registration
  // that was missing while the owner still lived says nothing once the owner is found gone.
  lemma OwnerMustBeGoneFirst()
    ensures var run := seq(14, (t: nat) => LateDeath(t));
            && IsLeasedRun(run)
            && run[0].world.file.None? && run[0].owner && !run[11].owner && run[11].beats == 0
            && CommandRunning(run[13].world)
  {
    hide Can, Apply, Init, CommandRunning, Opened, OpenedEvent;
    OpenedScenes();
    var run := seq(14, (t: nat) => LateDeath(t));
    forall i | 0 < i < |run| ensures NextLeased(run[i - 1], run[i]) {
      if i != 11 { OpenedSteps(if i < 11 then i - 1 else i - 2); }
      assert CanStep(run[i - 1], LateDeathStep(i - 1)) && run[i] == Do(run[i - 1], LateDeathStep(i - 1));
    }
  }
}
