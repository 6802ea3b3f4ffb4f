// The crash-tolerant protocol between the guardian (`supervise`), the gated child it
// forks and a separate inspector (`inspect_domain`), which communicate only through one
// atomically replaced record file (apps/openape-pods/native/pods-helper.c).
//
// The process table, the record file and the two pipes form a `World`.  Every system
// call that another process can observe is one `Event`; the guardian may die between
// any two events, and any process outside the domain may appear, even with a reused
// process id and in any process group.
module ProcessDomain {
  import opened Wrappers

  type Pid = nat

  // The kernel's identity of a process: its id together with its birth time.
  datatype Identity = Identity(pid: Pid, birth: nat)

  datatype Record = Record(guardian: Identity, child: Option<Identity>, closed: bool)

  // What a process is executing.  The child of `fork` passes from Forked to Command;
  // descendants of the command are Command processes too.
  datatype Stage =
    | Guarding // the guardian itself
    | Forked   // the child, still in the guardian's group
    | Leader   // after setsid
    | Gated    // after writing 'R', reading the gate
    | Approved // after reading 'G', before execv
    | Command  // the supervised command or one of its descendants
    | Foreign  // a process that has nothing to do with the domain

  datatype Process = Process(birth: nat, group: Pid, zombie: bool, stage: Stage)

  // The next thing `supervise` does.
  datatype Pc =
    | Starting    // publish the first record (line 199)
    | Leasing     // first lease check (200)
    | Refusing    // lease already lost: publish `closed` (200)
    | Forking     // fork (210)
    | Awaiting    // read 'R' from the child (238)
    | Identifying // read the child's birth identity (243)
    | Recording   // publish the record with the child (245)
    | Releasing   // second lease check (246)
    | Opening     // write 'G' into the gate (247)
    | Watching    // the polling loop (257-279)
    | Ending(fatal: bool) // terminate_group; `fatal` leaves without publishing `closed` (251)
    | Closing     // the group was seen empty: publish `closed` (246, 276, 280)
    | Finished    // return from `supervise`

  datatype World = World(
    file: Option<Record>,
    procs: map<Pid, Process>,
    guardian: Identity,
    pc: Pc,
    child: Option<Identity>, // what fork returned
    ready: bool,             // 'R' is in the registration pipe
    token: bool,             // 'G' is in the gate
    gateOpened: bool)            // the guardian has written 'G'

  datatype Event =
    | Publish                       // any write_domain, at its rename
    | LeaseOpen | LeaseLost         // the two answers of a lease check
    | Fork(pid: Pid, birth: nat)
    | SeeReady | SeeReadyEof
    | Identify
    | OpenGate
    | SeeExit                       // waitid reports the child
    | Stop                          // heartbeat lost, deadline passed or terminal failed
    | SetupFailed                   // nonblocking setup failed after the gate (250-252)
    | SeeGroupEmpty                 // terminate_group returns
    | GuardianDies                  // fail(), a signal, a crash, or the final return
    | Setsid | WriteReady | ReadGate | SeeGateEof | Exec
    | CommandForks(parent: Pid, pid: Pid, birth: nat)
    | Exits(pid: Pid)               // exit or kill of any process but the guardian
    | Reaped(pid: Pid)
    | Spawns(pid: Pid, birth: nat, group: Pid)

  predicate Live(w: World, pid: Pid) {
    pid in w.procs && !w.procs[pid].zombie
  }

  // `same_live_process`
  predicate SameLive(w: World, id: Identity) {
    Live(w, id.pid) && w.procs[id.pid].birth == id.birth
  }

  // `group_alive`, one atomic listing of the process group
  predicate GroupAlive(w: World, group: Pid) {
    exists pid :: pid in w.procs && Live(w, pid) && w.procs[pid].group == group
  }

  predicate GuardianAlive(w: World) {
    Live(w, w.guardian.pid) && w.procs[w.guardian.pid].stage == Guarding
  }

  predicate ChildAt(w: World, stage: Stage) {
    w.child.Some? && Live(w, w.child.value.pid) && w.procs[w.child.value.pid].stage == stage
  }

  predicate BeforeGate(stage: Stage) {
    stage == Forked || stage == Leader || stage == Gated
  }

  predicate InDomain(stage: Stage) {
    BeforeGate(stage) || stage == Approved || stage == Command
  }

  ghost predicate CommandRunning(w: World) {
    exists pid :: pid in w.procs && Live(w, pid) && w.procs[pid].stage == Command
  }

  ghost predicate Init(w: World) {
    && w.file.None? && w.child.None? && w.pc == Starting
    && !w.ready && !w.token && !w.gateOpened
    && GuardianAlive(w) && w.procs[w.guardian.pid].birth == w.guardian.birth
    && forall pid :: pid in w.procs && pid != w.guardian.pid ==> w.procs[pid].stage == Foreign
  }

  // Whether an event can happen.  A guardian event needs a live guardian at the right
  // place, a child event a live child at the right stage.
  predicate Can(w: World, e: Event) {
    match e
    case Publish => GuardianAlive(w) && (w.pc.Starting? || w.pc.Refusing? || w.pc.Recording? || w.pc.Closing?)
    case LeaseOpen => GuardianAlive(w) && (w.pc.Leasing? || w.pc.Releasing?)
    case LeaseLost => GuardianAlive(w) && (w.pc.Leasing? || w.pc.Releasing?)
    case Fork(pid, _) => GuardianAlive(w) && w.pc.Forking? && pid !in w.procs
    case SeeReady => GuardianAlive(w) && w.pc.Awaiting? && w.ready
    case SeeReadyEof => GuardianAlive(w) && w.pc.Awaiting? && !w.ready && !ChildAt(w, Forked) && !ChildAt(w, Leader)
    case Identify => GuardianAlive(w) && w.pc.Identifying?
    case OpenGate => GuardianAlive(w) && w.pc.Opening?
    case SeeExit => GuardianAlive(w) && w.pc.Watching? && w.child.Some? && !SameLive(w, w.child.value)
    case Stop => GuardianAlive(w) && w.pc.Watching?
    case SetupFailed => GuardianAlive(w) && w.pc.Watching?
    case SeeGroupEmpty => GuardianAlive(w) && w.pc.Ending? && w.child.Some? && !GroupAlive(w, w.child.value.pid)
    case GuardianDies => GuardianAlive(w)
    case Setsid => ChildAt(w, Forked)
    case WriteReady => ChildAt(w, Leader)
    case ReadGate => ChildAt(w, Gated) && w.token
    case SeeGateEof => ChildAt(w, Gated) && !w.token && !(GuardianAlive(w) && HoldsGate(w.pc))
    case Exec => ChildAt(w, Approved)
    case CommandForks(parent, pid, _) => Live(w, parent) && w.procs[parent].stage == Command && pid !in w.procs
    case Exits(pid) => Live(w, pid) && w.procs[pid].stage != Guarding
    case Reaped(pid) => pid in w.procs && w.procs[pid].zombie && !HeldByGuardian(w, pid)
    case Spawns(pid, _, _) => pid !in w.procs
  }

  // The guardian keeps the writing end of the gate until it has opened or abandoned it.
  predicate HoldsGate(pc: Pc) {
    pc.Awaiting? || pc.Identifying? || pc.Recording? || pc.Releasing? || pc.Opening?
  }

  // A dead child stays in the table until the guardian reaps it or is itself gone.
  predicate HeldByGuardian(w: World, pid: Pid)
    requires pid in w.procs
  {
    && GuardianAlive(w) && w.child.Some? && w.child.value.pid == pid
    && w.procs[pid].birth == w.child.value.birth
    && !w.pc.Closing? && !w.pc.Finished?
  }

  function Kill(w: World, pid: Pid): World
    requires pid in w.procs
  {
    w.(procs := w.procs[pid := w.procs[pid].(zombie := true)])
  }

  function MoveChild(w: World, stage: Stage): World
    requires w.child.Some? && w.child.value.pid in w.procs
  {
    w.(procs := w.procs[w.child.value.pid := w.procs[w.child.value.pid].(stage := stage)])
  }

  function Apply(w: World, e: Event): World
    requires Can(w, e)
  {
    match e
    case Publish =>
      if w.pc.Starting? then w.(file := Some(Record(w.guardian, None, false)), pc := Leasing)
      else if w.pc.Recording? then w.(file := Some(Record(w.guardian, w.child, false)), pc := Releasing)
      else w.(file := Some(Record(w.guardian, w.child, true)), pc := Finished)
    case LeaseOpen => w.(pc := if w.pc.Leasing? then Forking else Opening)
    case LeaseLost => w.(pc := if w.pc.Leasing? then Refusing else Ending(false))
    case Fork(pid, birth) =>
      w.(child := Some(Identity(pid, birth)), pc := Awaiting,
         procs := w.procs[pid := Process(birth, w.procs[w.guardian.pid].group, false, Forked)])
    case SeeReady => w.(pc := Identifying)
    case SeeReadyEof => Kill(w, w.guardian.pid)
    case Identify =>
      // a child that has already died has no identity left to read
      if w.child.Some? && SameLive(w, w.child.value) then w.(pc := Recording) else Kill(w, w.guardian.pid)
    case OpenGate => w.(token := true, gateOpened := true, pc := Watching)
    case SeeExit => w.(pc := Ending(false))
    case Stop => w.(pc := Ending(false))
    case SetupFailed => w.(pc := Ending(true))
    case SeeGroupEmpty => if w.pc.fatal then Kill(w, w.guardian.pid) else w.(pc := Closing)
    case GuardianDies => Kill(w, w.guardian.pid)
    case Setsid =>
      var pid := w.child.value.pid;
      w.(procs := w.procs[pid := w.procs[pid].(stage := Leader, group := pid)])
    case WriteReady => MoveChild(w, Gated).(ready := true)
    case ReadGate => MoveChild(w, Approved).(token := false)
    case SeeGateEof => Kill(w, w.child.value.pid)
    case Exec => MoveChild(w, Command)
    case CommandForks(parent, pid, birth) =>
      w.(procs := w.procs[pid := Process(birth, w.procs[parent].group, false, Command)])
    case Exits(pid) => Kill(w, pid)
    case Reaped(pid) => w.(procs := w.procs - {pid})
    case Spawns(pid, birth, group) => w.(procs := w.procs[pid := Process(birth, group, false, Foreign)])
  }

  ghost predicate Next(w: World, w': World) {
    w' == w || exists e :: Can(w, e) && w' == Apply(w, e)
  }

  ghost predicate IsRun(run: seq<World>) {
    && |run| > 0 && Init(run[0])
    && forall i {:trigger run[i]} :: 0 < i < |run| ==> Next(run[i - 1], run[i])
  }

  // ---------------------------------------------------------------- invariant

  // A live process of the domain is the forked child or, past the gate, a member of its group.
  ghost predicate Placed(w: World) {
    forall pid :: Live(w, pid) ==>
      var p := w.procs[pid];
      && (p.stage == Guarding ==> pid == w.guardian.pid && p.birth == w.guardian.birth)
      && (BeforeGate(p.stage) || p.stage == Approved ==> w.child == Some(Identity(pid, p.birth)))
      && (p.stage == Command ==> w.child.Some? && p.group == w.child.value.pid)
      && (p.stage == Leader || p.stage == Gated || p.stage == Approved ==> p.group == pid)
  }

  ghost predicate NoneLive(w: World) {
    forall pid :: Live(w, pid) ==> !InDomain(w.procs[pid].stage)
  }

  // Nothing is past the gate, and nothing in the gate lets anything pass.
  ghost predicate Shut(w: World) {
    !w.token && forall pid :: Live(w, pid) ==> w.procs[pid].stage != Approved && w.procs[pid].stage != Command
  }

  // The record file at each place of a live guardian.
  ghost predicate Published(w: World) {
    match w.pc
    case Starting => w.file.None? && w.child.None?
    case Leasing => w.file == Some(Record(w.guardian, None, false)) && w.child.None?
    case Refusing => w.file == Some(Record(w.guardian, None, false)) && w.child.None?
    case Forking => w.file == Some(Record(w.guardian, None, false)) && w.child.None?
    case Awaiting => w.file == Some(Record(w.guardian, None, false)) && w.child.Some? && !w.gateOpened
    case Identifying => w.file == Some(Record(w.guardian, None, false)) && w.child.Some? && !w.gateOpened
    case Recording => w.file == Some(Record(w.guardian, None, false)) && w.child.Some? && !w.gateOpened
    case Finished => w.file == Some(Record(w.guardian, w.child, true)) && NoneLive(w)
    case Closing => w.file == Some(Record(w.guardian, w.child, false)) && w.child.Some? && NoneLive(w)
    case Releasing => w.file == Some(Record(w.guardian, w.child, false)) && w.child.Some? && !w.gateOpened
    case Opening => w.file == Some(Record(w.guardian, w.child, false)) && w.child.Some? && !w.gateOpened
    case _ => w.file == Some(Record(w.guardian, w.child, false)) && w.child.Some?
  }

  predicate PastReady(pc: Pc) {
    || pc.Identifying? || pc.Recording? || pc.Releasing? || pc.Opening? || pc.Watching?
    || pc.Ending? || pc.Closing?
  }

  // Once the guardian has seen 'R', the child is out of the guardian's group.
  ghost predicate Detached(w: World) {
    && (w.ready ==> w.child.Some? && !ChildAt(w, Forked) && !ChildAt(w, Leader))
    && (PastReady(w.pc) ==> w.ready)
  }

  ghost predicate Inv(w: World) {
    && Placed(w)
    && Published(w)
    && Detached(w)
    && (!w.gateOpened ==> Shut(w))
    && (w.gateOpened ==> w.file.Some? && w.file.value.child.Some?)
  }

  lemma InitEstablishesInv(w: World)
    requires Init(w)
    ensures Inv(w)
  {
  }

  predicate ByGuardian(e: Event) {
    || e.Publish? || e.LeaseOpen? || e.LeaseLost? || e.Fork? || e.SeeReady? || e.SeeReadyEof? || e.Identify?
    || e.OpenGate? || e.SeeExit? || e.Stop? || e.SetupFailed? || e.SeeGroupEmpty? || e.GuardianDies?
  }

  predicate ByChild(e: Event) {
    e.Setsid? || e.WriteReady? || e.ReadGate? || e.SeeGateEof? || e.Exec?
  }

  // A death takes nothing back and lets nothing pass.
  lemma DeathKeepsInv(w: World, pid: Pid)
    requires Inv(w) && pid in w.procs
    ensures Inv(Kill(w, pid))
  {
    var w' := Kill(w, pid);
    assert forall q :: Live(w', q) ==> Live(w, q) && w'.procs[q] == w.procs[q];
  }

  // terminate_group returns only when nothing of the domain is left.
  lemma EmptyGroupIsEmptyDomain(w: World)
    requires Inv(w) && w.pc.Ending? && w.child.Some? && !GroupAlive(w, w.child.value.pid)
    ensures NoneLive(w)
  {
    forall pid | Live(w, pid) ensures !InDomain(w.procs[pid].stage) {
      assert w.procs[pid].group != w.child.value.pid;
      assert w.procs[pid].stage == Forked ==> ChildAt(w, Forked);
    }
  }

  lemma MovesKeepInv(w: World, e: Event)
    requires Inv(w) && Can(w, e) && ByGuardian(e)
    requires !e.Fork? && !e.SeeReadyEof? && !e.SeeGroupEmpty? && !e.GuardianDies?
    requires e.Identify? ==> w.child.Some? && SameLive(w, w.child.value)
    ensures Inv(Apply(w, e))
  {
    var w' := Apply(w, e);
    assert w'.procs == w.procs && w'.child == w.child && w'.ready == w.ready;
    assert forall pid :: Live(w', pid) == Live(w, pid);
    if w.pc.Refusing? {
      assert NoneLive(w);
    }
  }

  lemma ForkKeepsInv(w: World, e: Event)
    requires Inv(w) && Can(w, e) && e.Fork?
    ensures Inv(Apply(w, e))
  {
    var w' := Apply(w, e);
    assert forall q :: Live(w', q) && q != e.pid ==> Live(w, q) && w'.procs[q] == w.procs[q];
    assert NoneLive(w);
  }

  lemma ReachedEmptyGroup(w: World)
    requires Inv(w) && Can(w, SeeGroupEmpty) && !w.pc.fatal
    ensures Inv(Apply(w, SeeGroupEmpty))
  {
    EmptyGroupIsEmptyDomain(w);
  }

  lemma IdentifyKeepsInv(w: World)
    requires Inv(w) && Can(w, Identify)
    ensures Inv(Apply(w, Identify))
  {
    if w.child.Some? && SameLive(w, w.child.value) {
      MovesKeepInv(w, Identify);
    } else {
      DeathKeepsInv(w, w.guardian.pid);
    }
  }

  lemma GuardianKeepsInv(w: World, e: Event)
    requires Inv(w) && Can(w, e) && ByGuardian(e)
    ensures Inv(Apply(w, e))
  {
    hide Inv;
    match e
    case Fork(_, _) => ForkKeepsInv(w, e);
    case SeeReadyEof => DeathKeepsInv(w, w.guardian.pid);
    case Identify => IdentifyKeepsInv(w);
    case SeeGroupEmpty =>
      if w.pc.fatal { DeathKeepsInv(w, w.guardian.pid); } else { ReachedEmptyGroup(w); }
    case GuardianDies => DeathKeepsInv(w, w.guardian.pid);
    case _ => MovesKeepInv(w, e);
  }

  lemma ChildKeepsInv(w: World, e: Event)
    requires Inv(w) && Can(w, e) && ByChild(e)
    ensures Inv(Apply(w, e))
  {
  }

  lemma ForkedCommandKeepsInv(w: World, e: Event)
    requires Inv(w) && Can(w, e) && e.CommandForks?
    ensures Inv(Apply(w, e))
  {
  }

  lemma SpawnKeepsInv(w: World, e: Event)
    requires Inv(w) && Can(w, e) && e.Spawns?
    ensures Inv(Apply(w, e))
  {
  }

  lemma ReapingKeepsInv(w: World, e: Event)
    requires Inv(w) && Can(w, e) && e.Reaped?
    ensures Inv(Apply(w, e))
  {
  }

  lemma OthersKeepInv(w: World, e: Event)
    requires Inv(w) && Can(w, e) && !ByGuardian(e) && !ByChild(e)
    ensures Inv(Apply(w, e))
  {
    hide Inv, HeldByGuardian;
    match e
    case CommandForks(_, _, _) => ForkedCommandKeepsInv(w, e);
    case Exits(pid) => DeathKeepsInv(w, pid);
    case Reaped(_) => ReapingKeepsInv(w, e);
    case Spawns(_, _, _) => SpawnKeepsInv(w, e);
    case _ =>
  }

  lemma StepKeepsInv(w: World, w': World)
    requires Inv(w) && Next(w, w')
    ensures Inv(w')
  {
    if w' != w {
      var e :| Can(w, e) && w' == Apply(w, e);
      if ByGuardian(e) { GuardianKeepsInv(w, e); }
      else if ByChild(e) { ChildKeepsInv(w, e); }
      else { OthersKeepInv(w, e); }
    }
  }

  lemma {:induction false} RunKeepsInv(run: seq<World>, i: nat)
    requires IsRun(run) && i < |run|
    ensures Inv(run[i])
  {
    if i == 0 {
      InitEstablishesInv(run[0]);
    } else {
      RunKeepsInv(run, i - 1);
      assert Next(run[i - 1], run[i]);
      StepKeepsInv(run[i - 1], run[i]);
    }
  }

  // ---------------------------------------------------------------- finality

  // No live process is on its way to the gate or between the gate and execv.
  ghost predicate ChildPast(w: World) {
    w.child.Some? && forall pid :: Live(w, pid) ==> !BeforeGate(w.procs[pid].stage) && w.procs[pid].stage != Approved
  }

  // The domain is over, or was abandoned before the gate was opened.
  ghost predicate Final(w: World) {
    || (NoneLive(w) && (w.child.Some? || w.pc.Finished?))
    || (!GuardianAlive(w) && !w.gateOpened)
  }

  // A step brings no process to life on the way to the gate unless it is fork, and none
  // past it unless something of the domain was alive.
  lemma StepRevivesNothing(w: World, e: Event, pid: Pid)
    requires Inv(w) && Can(w, e)
    requires Live(Apply(w, e), pid) && InDomain(Apply(w, e).procs[pid].stage)
    ensures e.Fork? || !NoneLive(w)
    ensures e.Fork? || Apply(w, e).procs[pid].stage == Command || !ChildPast(w)
  {
    if e.CommandForks? {
      assert Live(w, e.parent) && InDomain(w.procs[e.parent].stage);
    } else if ByChild(e) {
      assert Live(w, w.child.value.pid);
    } else if !e.Fork? {
      assert Live(w, pid) && w.procs[pid].stage == Apply(w, e).procs[pid].stage;
    }
  }

  lemma GuardianStaysDead(w: World, e: Event)
    requires Can(w, e) && !GuardianAlive(w)
    ensures var w' := Apply(w, e); !GuardianAlive(w') && w'.file == w.file && w'.gateOpened == w.gateOpened
  {
  }

  lemma ChildPastStays(w: World, e: Event)
    requires Inv(w) && Can(w, e) && ChildPast(w) && !e.Fork?
    ensures Apply(w, e).child == w.child ==> ChildPast(Apply(w, e))
  {
    var w' := Apply(w, e);
    hide Inv, Can, Apply;
    forall pid | Live(w', pid) ensures !BeforeGate(w'.procs[pid].stage) && w'.procs[pid].stage != Approved {
      if InDomain(w'.procs[pid].stage) { StepRevivesNothing(w, e, pid); }
    }
  }

  lemma NoneLiveStays(w: World, e: Event)
    requires Inv(w) && Can(w, e) && NoneLive(w) && !e.Fork?
    ensures NoneLive(Apply(w, e))
  {
    var w' := Apply(w, e);
    hide Inv, Can, Apply;
    forall pid | Live(w', pid) ensures !InDomain(w'.procs[pid].stage) {
      if InDomain(w'.procs[pid].stage) { StepRevivesNothing(w, e, pid); }
    }
  }

  // What only fork changes, and that the guardian stops once for all.
  lemma StepKeepsChild(w: World, e: Event)
    requires Inv(w) && Can(w, e)
    ensures var w' := Apply(w, e);
            && w'.guardian == w.guardian
            && (w.child.Some? || w.pc.Finished? ==> !e.Fork?)
            && (!e.Fork? ==> w'.child == w.child)
            && (w.pc.Finished? ==> w'.pc.Finished?)
  {
  }

  lemma StepFacts(w: World, w': World)
    requires Inv(w) && Next(w, w')
    ensures !GuardianAlive(w) ==> !GuardianAlive(w') && w'.file == w.file && w'.gateOpened == w.gateOpened
    ensures w'.guardian == w.guardian
    ensures w.child.Some? ==> w'.child == w.child
    ensures ChildPast(w) ==> ChildPast(w')
    ensures Final(w) ==> Final(w')
  {
    if w' != w {
      var e :| Can(w, e) && w' == Apply(w, e);
      StepKeepsChild(w, e);
      hide Inv, Can, Apply, GuardianAlive, NoneLive;
      if !GuardianAlive(w) { GuardianStaysDead(w, e); }
      if ChildPast(w) { ChildPastStays(w, e); }
      if NoneLive(w) && (w.child.Some? || w.pc.Finished?) { NoneLiveStays(w, e); }
    }
  }

  lemma {:induction false} RunFacts(run: seq<World>, i: nat, j: nat)
    requires IsRun(run) && i <= j < |run|
    ensures !GuardianAlive(run[i]) ==> !GuardianAlive(run[j]) && run[j].file == run[i].file
    ensures run[j].guardian == run[i].guardian
    ensures run[i].child.Some? ==> run[j].child == run[i].child
    ensures ChildPast(run[i]) ==> ChildPast(run[j])
    ensures Final(run[i]) ==> Final(run[j])
    decreases j - i
  {
    hide Inv, Next, Init, GuardianAlive, ChildPast, Final;
    if i < j {
      RunFacts(run, i, j - 1);
      RunKeepsInv(run, j - 1);
      assert Next(run[j - 1], run[j]);
      StepFacts(run[j - 1], run[j]);
    }
  }

  // In a final state the command is not running, nor in any state after it.
  lemma FinalIsQuiet(run: seq<World>, i: nat)
    requires IsRun(run) && i < |run| && Final(run[i])
    ensures forall j :: i <= j < |run| ==> !CommandRunning(run[j])
  {
    forall j | i <= j < |run| ensures !CommandRunning(run[j]) {
      RunFacts(run, i, j);
      RunKeepsInv(run, j);
    }
  }

  // ---------------------------------------------------------------- the inspector

  datatype Reason =
    | RegistrationMissing
    | ConfirmedClosed
    | StillPresent
    | PreviousProcessesGone
    | RegistrationChanging

  predicate Quiescent(reason: Reason) {
    reason.ConfirmedClosed? || reason.PreviousProcessesGone?
  }

  // What the liveness checks of one attempt look for.
  ghost predicate Present(w: World, record: Record) {
    || SameLive(w, record.guardian)
    || (record.child.Some? && (SameLive(w, record.child.value) || GroupAlive(w, record.child.value.pid)))
  }

  // A record marked closed is final.
  lemma ClosedIsFinal(run: seq<World>, i: nat)
    requires IsRun(run) && i < |run| && run[i].file.Some? && run[i].file.value.closed
    ensures Final(run[i])
  {
    RunKeepsInv(run, i);
  }

  // A record shows its guardian, and its child as soon as the gate is open.
  lemma RecordFacts(run: seq<World>, i: nat)
    requires IsRun(run) && i < |run| && run[i].file.Some?
    ensures var r := run[i].file.value;
            && r.guardian == run[i].guardian
            && (r.child.Some? ==> r.child == run[i].child)
            && (r.child.None? ==> !run[i].gateOpened)
            && (GuardianAlive(run[i]) ==> SameLive(run[i], r.guardian))
  {
    RunKeepsInv(run, i);
  }

  // While the command runs, the record on disk is open and names a process group that an
  // inspection finds alive.
  lemma RunningIsRegistered(run: seq<World>, i: nat)
    requires IsRun(run) && i < |run| && CommandRunning(run[i])
    ensures run[i].file.Some? && !run[i].file.value.closed
    ensures run[i].file.value.child.Some? && GroupAlive(run[i], run[i].file.value.child.value.pid)
  {
    RunKeepsInv(run, i);
    var pid :| pid in run[i].procs && Live(run[i], pid) && run[i].procs[pid].stage == Command;
    assert run[i].gateOpened && run[i].procs[pid].group == run[i].child.value.pid;
    RecordFacts(run, i);
  }

  // One attempt: a record read at t0, its guardian found gone at t1, its child at t2 and
  // its group at t3, and the same record read again at t4.
  lemma UnchangedRecordIsFinal(run: seq<World>, t0: nat, t1: nat, t2: nat, t3: nat, t4: nat)
    requires IsRun(run) && t0 <= t1 <= t2 <= t3 <= t4 < |run|
    requires run[t0].file.Some?
    requires var r := run[t0].file.value;
             && !SameLive(run[t1], r.guardian)
             && (r.child.Some? ==> !SameLive(run[t2], r.child.value) && !GroupAlive(run[t3], r.child.value.pid))
    requires run[t4].file == run[t0].file
    ensures Final(run[t4])
  {
    var r := run[t0].file.value;
    RecordFacts(run, t0);
    RunFacts(run, t0, t1);
    RunKeepsInv(run, t1);
    assert !GuardianAlive(run[t1]);
    RunFacts(run, t1, t4);
    if r.child.Some? {
      RunFacts(run, t0, t2);
      RunKeepsInv(run, t2);
      assert ChildPast(run[t2]);
      RunFacts(run, t2, t3);
      RunKeepsInv(run, t3);
      assert NoneLive(run[t3]) by {
        forall pid | Live(run[t3], pid) ensures !InDomain(run[t3].procs[pid].stage) {
          assert run[t3].procs[pid].group != r.child.value.pid;
        }
      }
      RunFacts(run, t3, t4);
    } else {
      RecordFacts(run, t4);
    }
  }

  // What an answer given at time `when` says about the run since time `from`.
  ghost predicate Justified(run: seq<World>, from: nat, reason: Reason, when: nat)
    requires from <= when < |run|
  {
    && (Quiescent(reason) ==> forall j :: when <= j < |run| ==> !CommandRunning(run[j]))
    && (reason.RegistrationMissing? ==> run[when].file.None?)
    && (reason.ConfirmedClosed? ==> run[when].file.Some? && run[when].file.value.closed)
    && (reason.PreviousProcessesGone? ==>
          run[when].file.Some? && !run[when].file.value.closed && !GuardianAlive(run[when]))
    && (reason.StillPresent? ==>
          exists i :: from <= i <= when && run[i].file.Some? && !run[i].file.value.closed
                      && Present(run[when], run[i].file.value))
    && reason != RegistrationChanging
  }

  lemma GuardianSeenGone(run: seq<World>, t0: nat, t1: nat, t4: nat)
    requires IsRun(run) && t0 <= t1 <= t4 < |run| && run[t0].file.Some?
    requires !SameLive(run[t1], run[t0].file.value.guardian)
    ensures !GuardianAlive(run[t1]) && !GuardianAlive(run[t4])
  {
    RecordFacts(run, t0);
    RunFacts(run, t0, t1);
    RunKeepsInv(run, t1);
    assert !GuardianAlive(run[t1]);
    RunFacts(run, t1, t4);
  }

  // The processes of a record are gone, one observed after the other.
  ghost predicate SeenGone(run: seq<World>, t1: nat, t2: nat, t3: nat, record: Record)
    requires t1 < |run| && t2 < |run| && t3 < |run|
  {
    && !SameLive(run[t1], record.guardian)
    && (record.child.Some? ==> !SameLive(run[t2], record.child.value) && !GroupAlive(run[t3], record.child.value.pid))
  }

  // One attempt of the loop (lines 170-177), with its five observations.
  method InspectOnce(run: seq<World>, t0: nat, t1: nat, t2: nat, t3: nat, t4: nat)
      returns (reason: Option<Reason>, when: nat)
    requires IsRun(run) && t0 <= t1 <= t2 <= t3 <= t4 < |run|
    ensures t0 <= when <= t4
    ensures reason.Some? ==> Justified(run, t0, reason.value, when)
    ensures reason.None? ==> run[t0].file.Some? && !GuardianAlive(run[t1]) && run[t4].file != run[t0].file
    ensures reason == Some(StillPresent) ==> run[t0].file.Some? && Present(run[when], run[t0].file.value)
    ensures reason == Some(RegistrationMissing) <==> run[t0].file.None?
    ensures reason == Some(ConfirmedClosed) <==> run[t0].file.Some? && run[t0].file.value.closed
    ensures reason == Some(PreviousProcessesGone) <==>
              && run[t0].file.Some? && !run[t0].file.value.closed
              && SeenGone(run, t1, t2, t3, run[t0].file.value) && run[t4].file == run[t0].file
  {
    hide IsRun, SameLive, GroupAlive, GuardianAlive, CommandRunning, Final;
    if run[t0].file.None? {
      return Some(RegistrationMissing), t0;
    }
    var record := run[t0].file.value;
    if record.closed {
      ClosedIsFinal(run, t0);
      FinalIsQuiet(run, t0);
      return Some(ConfirmedClosed), t0;
    }
    if SameLive(run[t1], record.guardian) {
      return Some(StillPresent), t1;
    }
    if record.child.Some? && SameLive(run[t2], record.child.value) {
      return Some(StillPresent), t2;
    }
    if record.child.Some? && GroupAlive(run[t3], record.child.value.pid) {
      return Some(StillPresent), t3;
    }
    GuardianSeenGone(run, t0, t1, t4);
    if run[t4].file == Some(record) {
      UnchangedRecordIsFinal(run, t0, t1, t2, t3, t4);
      FinalIsQuiet(run, t4);
      return Some(PreviousProcessesGone), t4;
    }
    return None, t4;
  }

  // `inspect_domain` against any run: `at` says when each of its observations happens,
  // five to an attempt.  When it answers that the domain is quiescent, the command is not
  // running and never will be; it answers so whenever the registered processes stay gone.
  // The last answer of the source, that the registration keeps changing, never occurs.
  method InspectDomain(run: seq<World>, at: seq<nat>) returns (reason: Reason, when: nat)
    requires IsRun(run) && |at| == 15
    requires forall i, j :: 0 <= i <= j < 15 ==> at[i] <= at[j] < |run|
    ensures at[0] <= when <= at[14]
    ensures Justified(run, at[0], reason, when)
    ensures run[at[0]].file.None? ==> reason == RegistrationMissing
    ensures run[at[0]].file.Some? && run[at[0]].file.value.closed ==> reason == ConfirmedClosed
    ensures run[at[0]].file.Some? && (forall j :: at[0] <= j <= at[14] ==>
              run[j].file == run[at[0]].file && !Present(run[j], run[at[0]].file.value))
            ==> Quiescent(reason)
  {
    hide GuardianAlive, CommandRunning, Present, IsRun;
    when := at[0];
    var attempt := 0;
    while attempt < 3
      invariant 0 <= attempt <= 2
      invariant attempt > 0 ==> run[at[0]].file.Some? && !run[at[0]].file.value.closed
      invariant attempt > 0 ==> !GuardianAlive(run[at[5 * attempt - 4]])
      invariant attempt > 0 ==> exists j :: at[0] <= j <= at[14] && run[j].file != run[at[0]].file
    {
      var t := 5 * attempt;
      var answer;
      answer, when := InspectOnce(run, at[t], at[t + 1], at[t + 2], at[t + 3], at[t + 4]);
      if answer.Some? {
        return answer.value, when;
      }
      if attempt > 0 {
        RunFacts(run, at[t - 4], at[t]);
        RunFacts(run, at[t - 4], at[t + 4]);
      }
      attempt := attempt + 1;
    }
    reason := RegistrationChanging;
  }

  // ---------------------------------------------------------------- why it reads twice

  // A world with a guardian of id 1 and the child 2 of its domain.
  function Scene(file: Option<Record>, child: map<Pid, Process>, pc: Pc, forked: bool, ready: bool, token: bool,
                 gateOpened: bool, dead: bool): World
  {
    World(file, map[1 := Process(10, 1, dead, Guarding)] + child, Identity(1, 10), pc,
          if forked then Some(Identity(2, 20)) else None, ready, token, gateOpened)
  }

  // A run in which the guardian registers, forks, records the child, opens the gate and
  // dies before the child reads the gate.
  function EarlyDeath(t: nat): World {
    var bare := Some(Record(Identity(1, 10), None, false));
    var full := Some(Record(Identity(1, 10), Some(Identity(2, 20)), false));
    var forked := map[2 := Process(20, 1, false, Forked)];
    var leader := map[2 := Process(20, 2, false, Leader)];
    var gated := map[2 := Process(20, 2, false, Gated)];
    match t
    case 0 => Scene(None, map[], Starting, false, false, false, false, false)
    case 1 => Scene(bare, map[], Leasing, false, false, false, false, false)
    case 2 => Scene(bare, map[], Forking, false, false, false, false, false)
    case 3 => Scene(bare, forked, Awaiting, true, false, false, false, false)
    case 4 => Scene(bare, leader, Awaiting, true, false, false, false, false)
    case 5 => Scene(bare, gated, Awaiting, true, true, false, false, false)
    case 6 => Scene(bare, gated, Identifying, true, true, false, false, false)
    case 7 => Scene(bare, gated, Recording, true, true, false, false, false)
    case 8 => Scene(full, gated, Releasing, true, true, false, false, false)
    case 9 => Scene(full, gated, Opening, true, true, false, false, false)
    case 10 => Scene(full, gated, Watching, true, true, true, true, false)
    case 11 => Scene(full, gated, Watching, true, true, true, true, true)
    case 12 => Scene(full, map[2 := Process(20, 2, false, Approved)], Watching, true, true, false, true, true)
    case _ => Scene(full, map[2 := Process(20, 2, false, Command)], Watching, true, true, false, true, true)
  }

  function EarlyDeathEvent(t: nat): Event {
    match t
    case 0 => Publish
    case 1 => LeaseOpen
    case 2 => Fork(2, 20)
    case 3 => Setsid
    case 4 => WriteReady
    case 5 => SeeReady
    case 6 => Identify
    case 7 => Publish
    case 8 => LeaseOpen
    case 9 => OpenGate
    case 10 => GuardianDies
    case 11 => ReadGate
    case _ => Exec
  }

  lemma EarlyDeathBegins(t: nat)
    requires t < 7
    ensures Next(EarlyDeath(t), EarlyDeath(t + 1))
  {
    var w, e, w' := EarlyDeath(t), EarlyDeathEvent(t), EarlyDeath(t + 1);
    assert Can(w, e) && w' == Apply(w, e);
  }

  lemma EarlyDeathEnds(t: nat)
    requires 7 <= t < 13
    ensures Next(EarlyDeath(t), EarlyDeath(t + 1))
  {
    var w, e, w' := EarlyDeath(t), EarlyDeathEvent(t), EarlyDeath(t + 1);
    assert Can(w, e) && w' == Apply(w, e);
  }

  lemma EarlyDeathSteps(t: nat)
    requires t < 13
    ensures Next(EarlyDeath(t), EarlyDeath(t + 1))
  {
    hide *;
    if t < 7 { EarlyDeathBegins(t); } else { EarlyDeathEnds(t); }
  }

  lemma EarlyDeathScenes()
    ensures Init(EarlyDeath(0))
    ensures EarlyDeath(1).file == Some(Record(Identity(1, 10), None, false))
    ensures !Present(EarlyDeath(11), Record(Identity(1, 10), None, false))
    ensures CommandRunning(EarlyDeath(13))
  {
    EarlyDeathLast();
    hide CommandRunning;
  }

  lemma EarlyDeathLast()
    ensures CommandRunning(EarlyDeath(13))
  {
    assert Live(EarlyDeath(13), 2);
  }

  // Without the second read the answer would be wrong: the first read (t = 1) names no
  // child, every registered process is found gone (t = 11), and the command then runs.
  lemma SecondReadIsNeeded()
    ensures var run := seq(14, (t: nat) => EarlyDeath(t));
            && IsRun(run)
            && run[1].file.Some? && !run[1].file.value.closed
            && !Present(run[11], run[1].file.value)
            && CommandRunning(run[13])
  {
    hide EarlyDeath, EarlyDeathEvent, Next, Init, Present, CommandRunning, Can, Apply, Scene;
    var run := seq(14, (t: nat) => EarlyDeath(t));
    EarlyDeathScenes();
    forall i | 0 < i < |run| ensures Next(run[i - 1], run[i]) { EarlyDeathSteps(i - 1); }
  }
}
