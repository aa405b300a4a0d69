/**
 The launcher's supervision protocol: start and stop handlers, reaper and stop goroutines and the
 children themselves as interleaved atomic steps over one registry, and what every run keeps.
 */
module Launcher {
  import opened Text

  const CONTROL_START: int := 9966
  const PROXY_START: int := 8080
  const PORT_SPAN: int := 500

  type Pid = nat
  type Project = string

  datatype Instance = Instance(pid: Pid, control: int, proxy: int)

  /** A child process; pids are never reused, so the dead ones stay in the table. */
  datatype Proc = Proc(project: Project, control: int, proxy: int, alive: bool)

  /** Where a goroutine stands. A start handler holds the launcher's lock from StartLocked on. */
  datatype Thread =
    | StartWaiting(project: Project)
    | StartLocked(project: Project)
    | StartReconciled(project: Project)
    | StartHasControl(project: Project, control: int)
    | StartAllocated(project: Project, control: int, proxy: int)
    | StartSpawned(project: Project, inst: Instance)
    | StartConfirming(project: Project)
    | StopAsked(project: Project)
    | StopPolling(project: Project, pid: Pid)
    | StopCleaning(project: Project, pid: Pid)
    | Reaping(project: Project, pid: Pid)
    | Reaped(project: Project, pid: Pid)
    | Finished

  /** Ports something listens on, with the child that does, or none for another program. */
  type Bound = map<int, Option<Pid>>

  datatype State = State(procs: map<Pid, Proc>, reg: map<Project, Instance>, lock: Option<nat>, threads: seq<Thread>,
                         bound: Bound)

  predicate Alive(s: State, pid: Pid) {
    pid in s.procs && s.procs[pid].alive
  }

  /** A listen on the port would fail. A child's listeners go with it. */
  predicate IsBound(s: State, port: int) {
    port in s.bound && (s.bound[port].Some? ==> Alive(s, s.bound[port].value))
  }

  // ---- the registry's operations ----

  function RemoveIfPID(reg: map<Project, Instance>, project: Project, pid: Pid): map<Project, Instance> {
    if project in reg && reg[project].pid == pid then reg - {project} else reg
  }

  /** A reconcile asks about one entry at a time while children go on dying: it removes some set of
      entries whose process is dead. */
  ghost predicate Reconciled(s: State, reg: map<Project, Instance>) {
    && reg.Keys <= s.reg.Keys
    && (forall q :: q in reg ==> reg[q] == s.reg[q])
    && (forall q :: q in s.reg && q !in reg ==> !Alive(s, s.reg[q].pid))
  }

  /** The ports of the entries whose process is alive. */
  ghost predicate PortInUse(s: State, port: int) {
    exists q :: q in s.reg && Alive(s, s.reg[q].pid) && HasPort(s.reg[q], port)
  }

  predicate HasPort(inst: Instance, port: int) {
    inst.control == port || inst.proxy == port
  }

  // ---- the steps ----

  datatype Action =
    | NewStart(project: Project)
    | NewStop(project: Project)
    | List(reg: map<Project, Instance>)      // a dashboard request reconciles without the launcher's lock
    | Exit(pid: Pid)                         // a child exits: crash, signal, or its own end
    | Listen(port: int, by_: Option<Pid>)    // a child, or another program, opens a listener
    | Unlisten(port: int)                    // whoever has the listener closes it
    | Acquire(t: nat)
    | Reconcile(t: nat, reg: map<Project, Instance>)
    | AlreadyRunning(t: nat)
    | AllocateControl(t: nat, control: int)
    | AllocateProxy(t: nat, proxy: int)
    | GiveUp(t: nat)                         // no port, no log file or no process
    | Spawn(t: nat, pid: Pid)
    | Register(t: nat)
    | Confirmed(t: nat)                      // the port answered, the child exited, or time ran out
    | StopNotRunning(t: nat)
    | StopRunning(t: nat)
    | StopGone(t: nat)                       // the child is seen dead
    | StopForce(t: nat)                      // a kill is sent; if it has effect, the child's exit is a step of its own
    | StopRemove(t: nat)
    | Reap(t: nat)
    | ReapRemove(t: nat)

  function Set(s: State, t: nat, th: Thread): State
    requires t < |s.threads|
  {
    s.(threads := s.threads[t := th])
  }

  ghost predicate Step(s: State, a: Action, s': State) {
    match a
    case NewStart(q) => s' == s.(threads := s.threads + [StartWaiting(q)])
    case NewStop(q) => s' == s.(threads := s.threads + [StopAsked(q)])
    case List(reg) => Reconciled(s, reg) && s' == s.(reg := reg)
    case Exit(pid) => Alive(s, pid) && s' == s.(procs := s.procs[pid := s.procs[pid].(alive := false)])
    case Listen(port, by_) =>
      !IsBound(s, port) && (by_.Some? ==> Alive(s, by_.value)) && s' == s.(bound := s.bound[port := by_])
    case Unlisten(port) => s' == s.(bound := s.bound - {port})
    case Acquire(t) =>
      t < |s.threads| && s.threads[t].StartWaiting? && s.lock.None?
      && s' == Set(s, t, StartLocked(s.threads[t].project)).(lock := Some(t))
    case Reconcile(t, reg) =>
      t < |s.threads| && s.threads[t].StartLocked? && Reconciled(s, reg)
      && s' == Set(s, t, StartReconciled(s.threads[t].project)).(reg := reg)
    case AlreadyRunning(t) =>
      t < |s.threads| && s.threads[t].StartReconciled?
      && s.threads[t].project in s.reg && Alive(s, s.reg[s.threads[t].project].pid)
      && s' == Set(s, t, Finished).(lock := None)
    case AllocateControl(t, control) =>
      t < |s.threads| && s.threads[t].StartReconciled?
      && !(s.threads[t].project in s.reg && Alive(s, s.reg[s.threads[t].project].pid))
      && CONTROL_START <= control < CONTROL_START + PORT_SPAN
      && !PortInUse(s, control) && !IsBound(s, control)
      && s' == Set(s, t, StartHasControl(s.threads[t].project, control))
    case AllocateProxy(t, proxy) =>
      t < |s.threads| && s.threads[t].StartHasControl?
      && PROXY_START <= proxy < PROXY_START + PORT_SPAN
      && !PortInUse(s, proxy) && proxy != s.threads[t].control && !IsBound(s, proxy)
      && s' == Set(s, t, StartAllocated(s.threads[t].project, s.threads[t].control, proxy))
    case GiveUp(t) =>
      t < |s.threads| &&
          (s.threads[t].StartReconciled? || s.threads[t].StartHasControl? || s.threads[t].StartAllocated?)
      && s' == Set(s, t, Finished).(lock := None)
    case Spawn(t, pid) =>
      t < |s.threads| && s.threads[t].StartAllocated? && pid !in s.procs
      && var th := s.threads[t];
         s' == Set(s, t, StartSpawned(th.project, Instance(pid, th.control, th.proxy)))
               .(procs := s.procs[pid := Proc(th.project, th.control, th.proxy, true)])
    case Register(t) =>
      t < |s.threads| && s.threads[t].StartSpawned?
      && var th := s.threads[t];
         s' == s.(reg := s.reg[th.project := th.inst],
                  threads := s.threads[t := StartConfirming(th.project)] + [Reaping(th.project, th.inst.pid)])
    case Confirmed(t) =>
      t < |s.threads| && s.threads[t].StartConfirming? && s' == Set(s, t, Finished).(lock := None)
    case StopNotRunning(t) =>
      t < |s.threads| && s.threads[t].StopAsked? && s.lock.None?
      && !(s.threads[t].project in s.reg && Alive(s, s.reg[s.threads[t].project].pid))
      && s' == Set(s, t, Finished)
    case StopRunning(t) =>
      t < |s.threads| && s.threads[t].StopAsked? && s.lock.None?
      && s.threads[t].project in s.reg
      && s' == Set(s, t, StopPolling(s.threads[t].project, s.reg[s.threads[t].project].pid))
    case StopGone(t) =>
      t < |s.threads| && s.threads[t].StopPolling? && !Alive(s, s.threads[t].pid)
      && s' == Set(s, t, StopCleaning(s.threads[t].project, s.threads[t].pid))
    case StopForce(t) =>
      t < |s.threads| && s.threads[t].StopPolling? && Alive(s, s.threads[t].pid)
      && s' == Set(s, t, StopCleaning(s.threads[t].project, s.threads[t].pid))
    case StopRemove(t) =>
      t < |s.threads| && s.threads[t].StopCleaning? && s.lock.None?
      && s' == Set(s, t, Finished).(reg := RemoveIfPID(s.reg, s.threads[t].project, s.threads[t].pid))
    case Reap(t) =>
      t < |s.threads| && s.threads[t].Reaping? && !Alive(s, s.threads[t].pid)
      && s' == Set(s, t, Reaped(s.threads[t].project, s.threads[t].pid))
    case ReapRemove(t) =>
      t < |s.threads| && s.threads[t].Reaped?
      && s' == Set(s, t, Finished).(reg := RemoveIfPID(s.reg, s.threads[t].project, s.threads[t].pid))
  }

  // ---- the invariant ----

  predicate HoldsLock(th: Thread) {
    th.StartLocked? || th.StartReconciled? || th.StartHasControl? || th.StartAllocated? || th.StartSpawned? ||
        th.StartConfirming?
  }

  /** The entry a process of this project and these ports should have. */
  predicate Registered(s: State, pid: Pid) {
    && pid in s.procs
    && s.procs[pid].project in s.reg
    && s.reg[s.procs[pid].project] == Instance(pid, s.procs[pid].control, s.procs[pid].proxy)
  }

  /** The process a start handler has spawned and is about to register. */
  predicate InHand(s: State, pid: Pid) {
    s.lock.Some? && s.lock.value < |s.threads| && s.threads[s.lock.value].StartSpawned? &&
        s.threads[s.lock.value].inst.pid == pid
  }

  /** Every pid a registry entry names is a process with that entry's project and ports. */
  ghost predicate EntriesAreProcs(s: State) {
    forall q :: q in s.reg ==>
      && s.reg[q].pid in s.procs
      && s.procs[s.reg[q].pid].project == q
      && s.procs[s.reg[q].pid].control == s.reg[q].control
      && s.procs[s.reg[q].pid].proxy == s.reg[q].proxy
  }

  ghost predicate LiveAreRegistered(s: State) {
    forall pid :: Alive(s, pid) ==> Registered(s, pid) || InHand(s, pid)
  }

  predicate SharePort(a: Proc, b: Proc) {
    a.control == b.control || a.control == b.proxy || a.proxy == b.control || a.proxy == b.proxy
  }

  ghost predicate PortsApart(s: State) {
    && (forall p, q :: Alive(s, p) && Alive(s, q) && p != q ==> !SharePort(s.procs[p], s.procs[q]))
    && (forall p :: Alive(s, p) ==> s.procs[p].control != s.procs[p].proxy)
  }

  ghost predicate OnePerProject(s: State) {
    forall p, q :: Alive(s, p) && Alive(s, q) && s.procs[p].project == s.procs[q].project ==> p == q
  }

  /** What each goroutine knows where it stands. */
  ghost predicate ThreadOk(s: State, t: nat)
    requires t < |s.threads|
  {
    && (HoldsLock(s.threads[t]) <==> s.lock == Some(t))
    && match s.threads[t]
       case StartHasControl(q, c) => NoLive(s, q) && FreePort(s, c)
       case StartAllocated(q, c, x) =>
         && NoLive(s, q)
         && FreePort(s, c) && FreePort(s, x) && c != x
       case StartSpawned(q, inst) =>
         && inst.pid in s.procs && s.procs[inst.pid] == Proc(q, inst.control, inst.proxy, s.procs[inst.pid].alive)
         && (forall p :: Alive(s, p) && s.procs[p].project == q ==> p == inst.pid)
       case StopPolling(_, pid) => pid in s.procs
       case StopCleaning(_, pid) => pid in s.procs
       case Reaping(_, pid) => pid in s.procs
       case Reaped(_, pid) => pid in s.procs && !Alive(s, pid)
       case _ => true
  }

  ghost predicate NoLive(s: State, q: Project) {
    forall p :: Alive(s, p) ==> s.procs[p].project != q
  }

  /** No live process has the port. */
  ghost predicate FreePort(s: State, port: int) {
    forall p :: Alive(s, p) ==> s.procs[p].control != port && s.procs[p].proxy != port
  }

  ghost predicate Inv(s: State) {
    && EntriesAreProcs(s) && LiveAreRegistered(s) && PortsApart(s) && OnePerProject(s)
    && (forall t :: 0 <= t < |s.threads| ==> ThreadOk(s, t))
    && (s.lock.Some? ==> s.lock.value < |s.threads|)
  }

  /** The launcher as it starts: no goroutines, and whatever consistent instances an earlier one left. */
  ghost predicate Init(s: State) {
    && s.threads == [] && s.lock == None
    && EntriesAreProcs(s) && LiveAreRegistered(s) && PortsApart(s)
  }

  lemma {:induction false} InitInv(s: State)
    requires Init(s)
    ensures Inv(s)
  {}

  // ---- each step keeps it ----

  /** A process dies, or nothing happens to processes; the registry only loses entries of dead ones. */
  ghost predicate Quieter(s: State, s': State) {
    && s'.procs.Keys == s.procs.Keys
    && (forall p :: p in s.procs ==> s'.procs[p] == s.procs[p].(alive := s'.procs[p].alive))
    && (forall p :: Alive(s', p) ==> Alive(s, p))
    && s'.reg.Keys <= s.reg.Keys
    && (forall q :: q in s'.reg ==> s'.reg[q] == s.reg[q])
    && (forall q :: q in s.reg && q !in s'.reg ==> !Alive(s', s.reg[q].pid))
    && (forall p :: Alive(s', p) && InHand(s, p) ==> InHand(s', p) || Registered(s', p))
  }

  lemma {:induction false} QuieterKeeps(s: State, s': State)
    requires EntriesAreProcs(s) && LiveAreRegistered(s) && PortsApart(s) && OnePerProject(s) && Quieter(s, s')
    ensures EntriesAreProcs(s') && LiveAreRegistered(s') && PortsApart(s') && OnePerProject(s')
  {
    forall p | Alive(s', p) ensures Registered(s', p) || InHand(s', p) {
      assert Alive(s, p) && s'.procs[p] == s.procs[p];
    }
    forall p, q | Alive(s', p) && Alive(s', q) && p != q ensures !SharePort(s'.procs[p], s'.procs[q]) {
      assert s'.procs[p] == s.procs[p] && s'.procs[q] == s.procs[q];
    }
  }

  lemma {:induction false} QuieterThread(s: State, s': State, t: nat)
    requires t < |s.threads| && t < |s'.threads| && ThreadOk(s, t) && Quieter(s, s')
    requires s'.threads[t] == s.threads[t] && (s'.lock == Some(t) <==> s.lock == Some(t))
    ensures ThreadOk(s', t)
  {
    assert forall p :: Alive(s', p) ==> Alive(s, p) && s'.procs[p] == s.procs[p];
  }

  /** A step that moves one goroutine and otherwise makes things quieter. */
  lemma {:induction false} QuietStep(s: State, s': State, t: nat)
    requires Inv(s) && Quieter(s, s') && t < |s.threads| == |s'.threads|
    requires forall u :: 0 <= u < |s.threads| && u != t ==>
               s'.threads[u] == s.threads[u] && (s'.lock == Some(u) <==> s.lock == Some(u))
    requires ThreadOk(s', t) && (s'.lock.Some? ==> s'.lock.value < |s'.threads|)
    ensures Inv(s')
  {
    QuieterKeeps(s, s');
    forall u | 0 <= u < |s'.threads| ensures ThreadOk(s', u) {
      if u != t { QuieterThread(s, s', u); }
    }
  }

  /** A step of the outside: no goroutine moves; new ones may begin at the end. */
  lemma {:induction false} OutsideStep(s: State, s': State)
    requires Inv(s) && Quieter(s, s') && |s.threads| <= |s'.threads| && s'.lock == s.lock
    requires forall u :: 0 <= u < |s.threads| ==> s'.threads[u] == s.threads[u]
    requires forall u :: |s.threads| <= u < |s'.threads| ==> s'.threads[u].StartWaiting? || s'.threads[u].StopAsked?
    ensures Inv(s')
  {
    QuieterKeeps(s, s');
    forall u | 0 <= u < |s'.threads| ensures ThreadOk(s', u) {
      if u < |s.threads| { QuieterThread(s, s', u); }
    }
  }

  lemma {:induction false} SpawnKeeps(s: State, t: nat, pid: Pid, s': State)
    requires Inv(s) && Step(s, Spawn(t, pid), s')
    ensures Inv(s')
  {
    assert ThreadOk(s, t);
    var th := s.threads[t];
    forall p | Alive(s', p) && p != pid ensures Alive(s, p) && s'.procs[p] == s.procs[p] {}
    forall p | Alive(s', p) ensures Registered(s', p) || InHand(s', p) {
      if p != pid { assert Registered(s, p) || InHand(s, p); }
    }
    forall p, q | Alive(s', p) && Alive(s', q) && p != q ensures !SharePort(s'.procs[p], s'.procs[q]) {
      assert p != pid && q != pid ==> !SharePort(s.procs[p], s.procs[q]);
    }
    forall u | 0 <= u < |s'.threads| ensures ThreadOk(s', u) {
      assert ThreadOk(s, u);
    }
  }

  lemma {:induction false} RegisterKeeps(s: State, t: nat, s': State)
    requires Inv(s) && Step(s, Register(t), s')
    ensures Inv(s')
  {
    assert ThreadOk(s, t);
    var th := s.threads[t];
    forall p | Alive(s', p) ensures Registered(s', p) || InHand(s', p) {
      assert Registered(s, p) || InHand(s, p);
    }
    forall u | 0 <= u < |s'.threads| ensures ThreadOk(s', u) {
      if u < |s.threads| { assert ThreadOk(s, u); }
    }
  }

  lemma {:induction false} StartKeeps(s: State, a: Action, s': State)
    requires Inv(s) && Step(s, a, s')
    requires a.Acquire? || a.Reconcile?
    ensures Inv(s')
  {
    assert ThreadOk(s, a.t);
    assert forall u :: 0 <= u < |s.threads| ==> ThreadOk(s, u);
    QuietStep(s, s', a.t);
  }

  lemma {:induction false} StartEndKeeps(s: State, a: Action, s': State)
    requires Inv(s) && Step(s, a, s') && (a.AlreadyRunning? || a.GiveUp? || a.Confirmed?)
    ensures Inv(s')
  {
    assert ThreadOk(s, a.t);
    assert forall u :: 0 <= u < |s.threads| ==> ThreadOk(s, u);
    QuietStep(s, s', a.t);
  }

  lemma {:induction false} AllocateKeeps(s: State, a: Action, s': State)
    requires Inv(s) && Step(s, a, s') && (a.AllocateControl? || a.AllocateProxy?)
    ensures Inv(s')
  {
    assert ThreadOk(s, a.t);
    if a.AllocateControl? {
      AllocatedIsFree(s, a.control);
      NoEntryNoProcess(s, s.threads[a.t].project);
    } else {
      AllocatedIsFree(s, a.proxy);
    }
    QuietStep(s, s', a.t);
  }

  /** A port that no live entry uses is used by no live process, when no process is being registered. */
  lemma {:induction false} AllocatedIsFree(s: State, port: int)
    requires LiveAreRegistered(s) && (forall p :: !InHand(s, p)) && !PortInUse(s, port)
    ensures FreePort(s, port)
  {
    forall p | Alive(s, p)
      ensures s.procs[p].control != port && s.procs[p].proxy != port
    {
      assert Registered(s, p);
      assert s.procs[p].project in s.reg;
    }
  }

  /** A project without a live entry has no live process, when no process is being registered. */
  lemma {:induction false} NoEntryNoProcess(s: State, q: Project)
    requires LiveAreRegistered(s) && forall p :: !InHand(s, p)
    requires !(q in s.reg && Alive(s, s.reg[q].pid))
    ensures NoLive(s, q)
  {
    forall p | Alive(s, p)
      ensures s.procs[p].project != q
    {
      assert Registered(s, p);
    }
  }

  lemma {:induction false} StopKeeps(s: State, a: Action, s': State)
    requires Inv(s) && Step(s, a, s')
    requires a.StopGone? || a.StopForce? || a.Reap?
    ensures Inv(s')
  {
    assert ThreadOk(s, a.t);
    QuietStep(s, s', a.t);
  }

  lemma {:induction false} StopAskedKeeps(s: State, a: Action, s': State)
    requires Inv(s) && Step(s, a, s') && (a.StopNotRunning? || a.StopRunning?)
    ensures Inv(s')
  {
    assert ThreadOk(s, a.t);
    QuietStep(s, s', a.t);
  }

  /** A stop goroutine takes a live process's entry away. */
  predicate RemovesLive(s: State, a: Action) {
    a.StopRemove? && a.t < |s.threads| && s.threads[a.t].StopCleaning?
    && var th := s.threads[a.t];
       Alive(s, th.pid) && th.project in s.reg && s.reg[th.project].pid == th.pid
  }

  lemma {:induction false} RemoveKeeps(s: State, a: Action, s': State)
    requires Inv(s) && Step(s, a, s') && a.StopRemove? && !RemovesLive(s, a)
    ensures Inv(s')
  {
    assert ThreadOk(s, a.t);
    QuietStep(s, s', a.t);
  }

  lemma {:induction false} ReapKeeps(s: State, a: Action, s': State)
    requires Inv(s) && Step(s, a, s') && a.ReapRemove?
    ensures Inv(s')
  {
    assert ThreadOk(s, a.t);
    QuietStep(s, s', a.t);
  }

  /** Taking it away leaves the process alive without an entry, and no handler about to register it. */
  lemma {:induction false} RemoveBreaks(s: State, a: Action, s': State)
    requires Inv(s) && Step(s, a, s') && RemovesLive(s, a)
    ensures !LiveAreRegistered(s')
  {
    var th := s.threads[a.t];
    assert Alive(s', th.pid) && !Registered(s', th.pid) && !InHand(s', th.pid);
  }

  lemma {:induction false} OutsideKeeps(s: State, a: Action, s': State)
    requires Inv(s) && Step(s, a, s')
    requires a.List? || a.Exit? || a.Listen? || a.Unlisten?
    ensures Inv(s')
  {
    OutsideStep(s, s');
  }

  lemma {:induction false} RequestKeeps(s: State, a: Action, s': State)
    requires Inv(s) && Step(s, a, s') && (a.NewStart? || a.NewStop?)
    ensures Inv(s')
  {
    OutsideStep(s, s');
  }

  /** Every step keeps the invariant but one: a stop goroutine's removal of a live process's entry. */
  lemma {:induction false} StepKeeps(s: State, a: Action, s': State)
    requires Inv(s) && Step(s, a, s')
    ensures Inv(s') <==> !RemovesLive(s, a)
    ensures LiveAreRegistered(s') <==> !RemovesLive(s, a)
  {
    if RemovesLive(s, a) {
      RemoveBreaks(s, a, s');
    } else if a.NewStart? || a.NewStop? {
      RequestKeeps(s, a, s');
    } else if a.List? || a.Exit? || a.Listen? || a.Unlisten? {
      OutsideKeeps(s, a, s');
    } else if a.Spawn? {
      SpawnKeeps(s, a.t, a.pid, s');
    } else if a.Register? {
      RegisterKeeps(s, a.t, s');
    } else if a.StopRemove? {
      RemoveKeeps(s, a, s');
    } else if a.ReapRemove? {
      ReapKeeps(s, a, s');
    } else if a.StopNotRunning? || a.StopRunning? {
      StopAskedKeeps(s, a, s');
    } else if a.StopGone? || a.StopForce? || a.Reap? {
      StopKeeps(s, a, s');
    } else if a.AllocateControl? || a.AllocateProxy? {
      AllocateKeeps(s, a, s');
    } else if a.Acquire? || a.Reconcile? {
      StartKeeps(s, a, s');
    } else {
      StartEndKeeps(s, a, s');
    }
  }

  // ---- whole runs ----

  /** States from the start, each reached from the one before by the action between them. */
  ghost predicate IsRun(states: seq<State>, actions: seq<Action>) {
    && |states| == |actions| + 1
    && Init(states[0])
    && forall i :: 0 <= i < |actions| ==> Step(states[i], actions[i], states[i + 1])
  }

  /** In the first n steps no stop goroutine removes the entry of a process that is still alive. */
  ghost predicate StopsInTime(states: seq<State>, actions: seq<Action>, n: nat)
    requires n <= |actions| < |states|
  {
    forall i :: 0 <= i < n ==> !RemovesLive(states[i], actions[i])
  }

  /**
   What supervision promises: a project has at most one live process, every live process has its
   registry entry (but for the one its start handler is about to register), and all ports of live
   processes are distinct.
   */
  ghost predicate Supervised(s: State) {
    OnePerProject(s) && LiveAreRegistered(s) && PortsApart(s)
  }

  lemma {:induction false} RunKeeps(states: seq<State>, actions: seq<Action>, n: nat)
    requires IsRun(states, actions) && n <= |actions| && StopsInTime(states, actions, n)
    ensures Inv(states[n])
    decreases n
  {
    if n == 0 {
      InitInv(states[0]);
    } else {
      RunKeeps(states, actions, n - 1);
      assert Step(states[n - 1], actions[n - 1], states[n]);
      StepKeeps(states[n - 1], actions[n - 1], states[n]);
    }
  }

  /** The first removal in a run of a live process's entry leaves a state that is not supervised. */
  lemma {:induction false} FirstLateStop(states: seq<State>, actions: seq<Action>, n: nat) returns (m: nat)
    requires IsRun(states, actions) && n <= |actions| && !StopsInTime(states, actions, n)
    ensures m <= n && !Supervised(states[m])
    decreases n
  {
    if StopsInTime(states, actions, n - 1) {
      RunKeeps(states, actions, n - 1);
      assert Step(states[n - 1], actions[n - 1], states[n]);
      StepKeeps(states[n - 1], actions[n - 1], states[n]);
      m := n;
    } else {
      m := FirstLateStop(states, actions, n - 1);
    }
  }

  /**
   Over all interleavings, every state up to the n-th is supervised exactly when each stop goroutine so
   far found its process dead when it came to remove its entry, or the entry no longer that process's.
   */
  lemma {:induction false} SupervisedExactly(states: seq<State>, actions: seq<Action>, n: nat)
    requires IsRun(states, actions) && n <= |actions|
    ensures (forall m :: 0 <= m <= n ==> Supervised(states[m])) <==> StopsInTime(states, actions, n)
  {
    if StopsInTime(states, actions, n) {
      forall m | 0 <= m <= n ensures Supervised(states[m]) {
        RunKeeps(states, actions, m);
      }
    } else {
      var m := FirstLateStop(states, actions, n);
    }
  }

  /** In such a run: one live process for a project, each with its entry, and no port shared. */
  lemma {:induction false} RunIsSupervised(states: seq<State>, actions: seq<Action>, n: nat, p: Pid, q: Pid)
    requires IsRun(states, actions) && n <= |actions| && StopsInTime(states, actions, n)
    requires Alive(states[n], p) && Alive(states[n], q)
    ensures states[n].procs[p].project == states[n].procs[q].project ==> p == q
    ensures Registered(states[n], p) || InHand(states[n], p)
    ensures var a, b := states[n].procs[p], states[n].procs[q];
            && a.control != a.proxy
            && (p != q ==> a.control != b.control && a.control != b.proxy
                           && a.proxy != b.control && a.proxy != b.proxy)
  {
    RunKeeps(states, actions, n);
  }

  predicate InRanges(control: int, proxy: int) {
    9966 <= control < 10466 && 8080 <= proxy < 8580
  }

  /** The ports a start handler has chosen are in their ranges. */
  predicate ChosenInRange(th: Thread) {
    match th
    case StartHasControl(_, c) => InRanges(c, 8080)
    case StartAllocated(_, c, x) => InRanges(c, x)
    case StartSpawned(_, inst) => InRanges(inst.control, inst.proxy)
    case _ => true
  }

  lemma {:induction false} StepChoosesInRange(s: State, a: Action, s': State)
    requires Step(s, a, s') && forall t :: 0 <= t < |s.threads| ==> ChosenInRange(s.threads[t])
    ensures forall t :: 0 <= t < |s'.threads| ==> ChosenInRange(s'.threads[t])
  {}

  lemma {:induction false} RunChoosesInRange(states: seq<State>, actions: seq<Action>, n: nat)
    requires IsRun(states, actions) && n <= |actions|
    ensures forall t :: 0 <= t < |states[n].threads| ==> ChosenInRange(states[n].threads[t])
    decreases n
  {
    if n > 0 {
      RunChoosesInRange(states, actions, n - 1);
      StepChoosesInRange(states[n - 1], actions[n - 1], states[n]);
    }
  }

  /** A port is chosen only while nothing listens on it: no other program, and no child that is alive. */
  lemma {:induction false} ChosenIsUnbound(states: seq<State>, actions: seq<Action>, n: nat, t: nat, port: int)
    requires IsRun(states, actions) && n < |actions|
    requires actions[n] == AllocateControl(t, port) || actions[n] == AllocateProxy(t, port)
    ensures var s := states[n]; port in s.bound ==> s.bound[port].Some? && !Alive(s, s.bound[port].value)
  {
    assert Step(states[n], actions[n], states[n + 1]);
  }

  /** In such a run every process is started on two different ports of their ranges that no other live one has. */
  lemma {:induction false} SpawnedOnFreePorts(states: seq<State>, actions: seq<Action>, n: nat, t: nat, pid: Pid)
    requires IsRun(states, actions) && n < |actions| && StopsInTime(states, actions, n + 1)
    requires actions[n] == Spawn(t, pid)
    ensures pid !in states[n].procs && Alive(states[n + 1], pid)
    ensures var a := states[n + 1].procs[pid];
            && InRanges(a.control, a.proxy) && a.control != a.proxy
            && forall p :: Alive(states[n], p) ==>
                 var b := states[n].procs[p];
                 a.control != b.control && a.control != b.proxy && a.proxy != b.control && a.proxy != b.proxy
  {
    assert Step(states[n], actions[n], states[n + 1]);
    assert StopsInTime(states, actions, n);
    RunKeeps(states, actions, n);
    RunChoosesInRange(states, actions, n);
    assert ThreadOk(states[n], t) && ChosenInRange(states[n].threads[t]);
  }

  /** No step of such a run takes away or changes the entry of a process that is alive after it; in
      particular a goroutine of an old process never removes a restarted instance's entry. */
  lemma {:induction false} LiveEntryStays(states: seq<State>, actions: seq<Action>, n: nat, q: Project)
    requires IsRun(states, actions) && n < |actions| && StopsInTime(states, actions, n + 1)
    requires q in states[n].reg && Alive(states[n + 1], states[n].reg[q].pid)
    ensures q in states[n + 1].reg && states[n + 1].reg[q] == states[n].reg[q]
  {
    var s, a, s' := states[n], actions[n], states[n + 1];
    assert StopsInTime(states, actions, n);
    RunKeeps(states, actions, n);
    RunKeeps(states, actions, n + 1);
    assert Step(s, a, s');
    assert Alive(s, s.reg[q].pid) by {
      assert s.reg[q].pid in s.procs;
    }
    if a.Register? || a.StopRemove? || a.ReapRemove? {
      assert ThreadOk(s, a.t);
    }
  }

  /**
   A cleanup goroutine removes nothing, or the entry of the very process it was started for. A reaper's
   process is dead then; a stop goroutine's is exactly if the run is supervised after the step.
   */
  lemma {:induction false} CleanupIsOwn(states: seq<State>, actions: seq<Action>, n: nat)
    requires IsRun(states, actions) && n < |actions| && StopsInTime(states, actions, n)
    requires actions[n].StopRemove? || actions[n].ReapRemove?
    ensures var s, s', th := states[n], states[n + 1], states[n].threads[actions[n].t];
            s'.reg == s.reg || (th.project in s.reg && s.reg[th.project].pid == th.pid && s'.reg == s.reg - {th.project}
                                && (actions[n].ReapRemove? ==> !Alive(s, th.pid))
                                && (!Alive(s, th.pid) <==> Supervised(s')))
  {
    RunKeeps(states, actions, n);
    assert Step(states[n], actions[n], states[n + 1]);
    assert ThreadOk(states[n], actions[n].t);
    StepKeeps(states[n], actions[n], states[n + 1]);
  }

  // ---- a stop that is not in time ----

  /** The ports the second start may be given. */
  predicate Offered(bound: Bound, control: int, proxy: int) {
    && CONTROL_START <= control < CONTROL_START + PORT_SPAN && PROXY_START <= proxy < PROXY_START + PORT_SPAN
    && control !in bound && proxy !in bound && control != proxy
  }

  /**
   An instance is running; it is stopped by a kill that has no effect, or not yet; its project is
   started again, on ports nothing listens on.
   */
  function StubbornRun(bound: Bound, control: int, proxy: int): (seq<State>, seq<Action>) {
    var p := "p";
    var old' := Proc(p, 9966, 8080, true);
    var s0 := State(map[1 := old'], map[p := Instance(1, 9966, 8080)], None, [], bound);
    var s1 := s0.(threads := [StopAsked(p)]);
    var s2 := s1.(threads := [StopPolling(p, 1)]);
    var s3 := s2.(threads := [StopCleaning(p, 1)]);
    var s4 := s3.(threads := [Finished], reg := map[]);
    var s5 := s4.(threads := [Finished, StartWaiting(p)]);
    var s6 := s5.(threads := [Finished, StartLocked(p)], lock := Some(1));
    var s7 := s6.(threads := [Finished, StartReconciled(p)]);
    var s8 := s7.(threads := [Finished, StartHasControl(p, control)]);
    var s9 := s8.(threads := [Finished, StartAllocated(p, control, proxy)]);
    var s10 := s9.(threads := [Finished, StartSpawned(p, Instance(2, control, proxy))],
                   procs := map[1 := old', 2 := Proc(p, control, proxy, true)]);
    ([s0, s1, s2, s3, s4, s5, s6, s7, s8, s9, s10],
     [NewStop(p), StopRunning(0), StopForce(0), StopRemove(0), NewStart(p),
      Acquire(1), Reconcile(1, map[]), AllocateControl(1, control), AllocateProxy(1, proxy), Spawn(1, 2)])
  }

  /**
   The old process stays alive without an entry, and the next start of its project gives it a second
   live process: on other ports while the old one listens on its own, on the very same once it has
   closed its listeners.
   */
  lemma {:induction false} StubbornProcessBreaksSupervision(bound: Bound, control: int, proxy: int)
    requires Offered(bound, control, proxy)
    ensures var (states, actions) := StubbornRun(bound, control, proxy);
            && IsRun(states, actions) && RemovesLive(states[3], actions[3])
            && Alive(states[10], 1) && Alive(states[10], 2) && !Registered(states[10], 1)
            && states[10].procs[1].project == states[10].procs[2].project
            && (states[10].procs[2].control, states[10].procs[2].proxy) == (control, proxy)
    ensures 9966 in bound && 8080 in bound ==> control != 9966 && proxy != 8080
    ensures Offered(map[], 9966, 8080)
  {
    var (states, actions) := StubbornRun(bound, control, proxy);
    StubbornAsked(bound, control, proxy);
    StubbornStopped(bound, control, proxy);
    StubbornLocked(bound, control, proxy);
    StubbornStarted(bound, control, proxy);
    assert forall i :: 0 <= i < 4 ==> Step(states[i], actions[i], states[i + 1]);
    assert forall i :: 4 <= i < 10 ==> Step(states[i], actions[i], states[i + 1]);
  }

  lemma {:induction false} StubbornAsked(bound: Bound, control: int, proxy: int)
    requires Offered(bound, control, proxy)
    ensures var (states, actions) := StubbornRun(bound, control, proxy);
            Init(states[0]) && forall i :: 0 <= i < 2 ==> Step(states[i], actions[i], states[i + 1])
  {
    var (states, actions) := StubbornRun(bound, control, proxy);
    assert Step(states[0], actions[0], states[1]);
    assert Step(states[1], actions[1], states[2]);
  }

  lemma {:induction false} StubbornStopped(bound: Bound, control: int, proxy: int)
    requires Offered(bound, control, proxy)
    ensures var (states, actions) := StubbornRun(bound, control, proxy);
            forall i :: 2 <= i < 4 ==> Step(states[i], actions[i], states[i + 1])
  {
    var (states, actions) := StubbornRun(bound, control, proxy);
    assert Step(states[2], actions[2], states[3]);
    assert Step(states[3], actions[3], states[4]);
  }

  lemma {:induction false} StubbornLocked(bound: Bound, control: int, proxy: int)
    requires Offered(bound, control, proxy)
    ensures var (states, actions) := StubbornRun(bound, control, proxy);
            forall i :: 4 <= i < 7 ==> Step(states[i], actions[i], states[i + 1])
  {
    var (states, actions) := StubbornRun(bound, control, proxy);
    assert Step(states[4], actions[4], states[5]);
    assert Step(states[5], actions[5], states[6]);
    assert Step(states[6], actions[6], states[7]);
  }

  lemma {:induction false} StubbornStarted(bound: Bound, control: int, proxy: int)
    requires Offered(bound, control, proxy)
    ensures var (states, actions) := StubbornRun(bound, control, proxy);
            forall i :: 7 <= i < 10 ==> Step(states[i], actions[i], states[i + 1])
  {
    var (states, actions) := StubbornRun(bound, control, proxy);
    assert Step(states[7], actions[7], states[8]);
    assert Step(states[8], actions[8], states[9]);
    assert Step(states[9], actions[9], states[10]);
  }

  // ---- the registry as the program updates it ----

  /** The first port of a range that is not used and can be bound; binds stands for the bind probe. */
  method FindFreePort(start: int, span: int, used: set<int>, binds: int -> bool) returns (r: Option<int>)
    ensures r.Some? ==> start <= r.value < start + span && r.value !in used && binds(r.value)
                        && forall q :: start <= q < r.value ==> q in used || !binds(q)
    ensures r.None? ==> forall q :: start <= q < start + span ==> q in used || !binds(q)
  {
    var q := start;
    while q < start + span
      invariant start <= q
      invariant forall k :: start <= k < q ==> k in used || !binds(k)
    {
      if q !in used && binds(q) {
        return Some(q);
      }
      q := q + 1;
    }
    return None;
  }

  class Registry {
    var byProject: map<Project, Instance>

    method Upsert(project: Project, inst: Instance)
      modifies this
      ensures byProject == old(byProject)[project := inst]
    {
      byProject := byProject[project := inst];
    }

    method RemoveEntry(project: Project, pid: Pid)
      modifies this
      ensures byProject == RemoveIfPID(old(byProject), project, pid)
    {
      if project !in byProject || byProject[project].pid != pid {
        return;
      }
      byProject := byProject - {project};
    }

    /** Drops the entries whose process is not alive, and no others. */
    method ReconcileWith(alive: Pid -> bool)
      modifies this
      ensures byProject == map q | q in old(byProject) && alive(old(byProject)[q].pid) :: old(byProject)[q]
    {
      var rest := byProject.Keys;
      while rest != {}
        invariant rest <= byProject.Keys
        invariant byProject == map q | q in old(byProject) && (q in rest || alive(old(byProject)[q].pid)) ::
                    old(byProject)[q]
        decreases rest
      {
        var q :| q in rest;
        if !alive(byProject[q].pid) {
          byProject := byProject - {q};
        }
        rest := rest - {q};
      }
    }

    /** A live entry has the port. */
    ghost predicate Taken(alive: Pid -> bool, port: int)
      reads this
    {
      exists q :: q in byProject && alive(byProject[q].pid) && HasPort(byProject[q], port)
    }

    /** Two different ports, in their ranges, that no live entry has; none only if the ranges are full. */
    method AllocatePorts(alive: Pid -> bool, binds: int -> bool) returns (ports: Option<(int, int)>)
      ensures ports.Some? ==>
                var (c, x) := ports.value;
                && CONTROL_START <= c < CONTROL_START + PORT_SPAN && PROXY_START <= x < PROXY_START + PORT_SPAN
                && c != x && binds(c) && binds(x)
                && !Taken(alive, c) && !Taken(alive, x)
      ensures ports.None? ==>
                || (forall c :: CONTROL_START <= c < CONTROL_START + PORT_SPAN ==> Taken(alive, c) || !binds(c))
                || (forall x :: PROXY_START <= x < PROXY_START + PORT_SPAN ==> Taken(alive, x) || !binds(x))
    {
      var used: set<int> := {};
      var rest := byProject.Keys;
      while rest != {}
        invariant rest <= byProject.Keys
        invariant forall n :: n in used ==> Taken(alive, n)
        invariant forall q :: q in byProject && q !in rest && alive(byProject[q].pid) ==>
                    byProject[q].control in used && byProject[q].proxy in used
        decreases rest
      {
        var q :| q in rest;
        if alive(byProject[q].pid) {
          assert HasPort(byProject[q], byProject[q].control) && HasPort(byProject[q], byProject[q].proxy);
          used := used + {byProject[q].control, byProject[q].proxy};
        }
        rest := rest - {q};
      }
      var c := FindFreePort(CONTROL_START, PORT_SPAN, used, binds);
      if c.None? {
        return None;
      }
      var x := FindFreePort(PROXY_START, PORT_SPAN, used + {c.value}, binds);
      if x.None? {
        return None;
      }
      return Some((c.value, x.value));
    }
  }
}
