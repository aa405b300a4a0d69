/**
 What gets done in the launcher's runs: every child it starts is watched until it dies, the entry of a dead child goes,
 and a start either finds its project running or may choose a port.
 */
module LauncherRuns {
  import opened Text
  import opened Launcher

  // ---- children are watched ----

  /** A start handler has just started the process, or its reaper waits for it. */
  ghost predicate Watched(s: State, pid: Pid) {
    pid in s.procs && exists t :: 0 <= t < |s.threads| && Watches(s.threads[t], s.procs[pid].project, pid)
  }

  predicate Watches(th: Thread, project: Project, pid: Pid) {
    || (th.StartSpawned? && th.project == project && th.inst.pid == pid)
    || th == Reaping(project, pid)
  }

  lemma {:induction false} ProcessStays(s: State, a: Action, s': State, pid: Pid)
    requires Step(s, a, s') && pid in s.procs
    ensures pid in s'.procs && s'.procs[pid].project == s.procs[pid].project
    ensures Alive(s', pid) ==> Alive(s, pid)
  {}

  /** Only the watcher of a dead process goes on. */
  lemma {:induction false} WatcherStays(s: State, a: Action, s': State, t: nat, project: Project, pid: Pid)
    requires Step(s, a, s') && t < |s.threads| && Watches(s.threads[t], project, pid) && Alive(s, pid)
    ensures exists u :: 0 <= u < |s'.threads| && Watches(s'.threads[u], project, pid)
  {
    if a == Register(t) {
      assert s'.threads[|s.threads|] == Reaping(project, pid);
    } else {
      assert s'.threads[t] == s.threads[t];
    }
  }

  lemma {:induction false} WatchedStays(s: State, a: Action, s': State, pid: Pid)
    requires Step(s, a, s') && Alive(s', pid) && (pid in s.procs ==> Watched(s, pid))
    ensures Watched(s', pid)
  {
    if pid in s.procs {
      ProcessStays(s, a, s', pid);
      var t :| 0 <= t < |s.threads| && Watches(s.threads[t], s.procs[pid].project, pid);
      WatcherStays(s, a, s', t, s.procs[pid].project, pid);
    } else {
      assert a.Spawn? && Watches(s'.threads[a.t], s'.procs[pid].project, pid);
    }
  }

  /** In every run each live process that was not there at first is watched, under its own project. */
  lemma {:induction false} EverySpawnIsWatched(states: seq<State>, actions: seq<Action>, n: nat, pid: Pid)
    requires IsRun(states, actions) && n <= |actions|
    requires Alive(states[n], pid) && pid !in states[0].procs
    ensures Watched(states[n], pid)
    decreases n
  {
    if n > 0 {
      var s, s' := states[n - 1], states[n];
      assert Step(s, actions[n - 1], s');
      if pid in s.procs {
        ProcessStays(s, actions[n - 1], s', pid);
        EverySpawnIsWatched(states, actions, n - 1, pid);
      }
      WatchedStays(s, actions[n - 1], s', pid);
    }
  }

  // ---- entries of dead processes go ----

  /** No entry of the project is for the process. */
  predicate NoEntry(s: State, project: Project, pid: Pid) {
    project in s.reg ==> s.reg[project].pid != pid
  }

  /** After a cleanup there is no entry for its process, and every other entry is as it was. */
  lemma {:induction false} CleanupRemoves(s: State, a: Action, s': State, q: Project)
    requires Step(s, a, s') && (a.StopRemove? || a.ReapRemove?)
    ensures var th := s.threads[a.t];
            && NoEntry(s', th.project, th.pid)
            && (NoEntry(s, q, th.pid) || q != th.project ==>
                  (q in s'.reg <==> q in s.reg) && (q in s.reg ==> s'.reg[q] == s.reg[q]))
            && s'.procs == s.procs && s'.bound == s.bound
  {}

  /** Once a watched child has died, its reaper can go on at once, whoever has the lock, and its entry goes. */
  lemma {:induction false} DeadEntryCanGo(s: State, t: nat, project: Project, pid: Pid) returns (s1: State, s2: State)
    requires t < |s.threads| && s.threads[t] == Reaping(project, pid) && !Alive(s, pid)
    ensures Step(s, Reap(t), s1) && Step(s1, ReapRemove(t), s2) && NoEntry(s2, project, pid)
  {
    s1 := Set(s, t, Reaped(project, pid));
    s2 := Set(s1, t, Finished).(reg := RemoveIfPID(s1.reg, project, pid));
  }

  // ---- what a start can do ----

  ghost predicate CanStep(s: State, a: Action) {
    exists s' :: Step(s, a, s')
  }

  /** The project has an entry for a process that is alive. */
  predicate IsRunning(s: State, project: Project) {
    project in s.reg && Alive(s, s.reg[project].pid)
  }

  /** No entry of a live process has the port, and nothing listens on it. */
  ghost predicate IsFree(s: State, port: int) {
    && (forall q :: q in s.reg && Alive(s, s.reg[q].pid) ==> s.reg[q].control != port && s.reg[q].proxy != port)
    && (port in s.bound ==> s.bound[port].Some? && !Alive(s, s.bound[port].value))
  }

  lemma {:induction false} FreeExactly(s: State, port: int)
    ensures IsFree(s, port) <==> !PortInUse(s, port) && !IsBound(s, port)
  {
    if IsFree(s, port) {
      assert forall q :: q in s.reg && Alive(s, s.reg[q].pid) ==> !HasPort(s.reg[q], port);
    } else if !PortInUse(s, port) {
      assert forall q :: q in s.reg && Alive(s, s.reg[q].pid) ==> !HasPort(s.reg[q], port);
    }
  }

  /** A start that has reconciled ends there exactly if its project is running; otherwise it may choose exactly the free
      ports of the range. */
  lemma {:induction false} StartDecides(s: State, t: nat, port: int)
    requires t < |s.threads| && s.threads[t].StartReconciled?
    ensures CanStep(s, AlreadyRunning(t)) <==> IsRunning(s, s.threads[t].project)
    ensures CanStep(s, AllocateControl(t, port)) <==>
            !IsRunning(s, s.threads[t].project) && 9966 <= port < 10466 && IsFree(s, port)
  {
    FreeExactly(s, port);
    var project := s.threads[t].project;
    var done := Set(s, t, Finished).(lock := None);
    var chosen := Set(s, t, StartHasControl(project, port));
    assert IsRunning(s, project) ==> Step(s, AlreadyRunning(t), done);
    assert !IsRunning(s, project) && 9966 <= port < 10466 && IsFree(s, port) ==>
             Step(s, AllocateControl(t, port), chosen);
  }

  /** A start with a control port may choose exactly the free ports of the other range but that one. */
  lemma {:induction false} ProxyIsChosen(s: State, t: nat, port: int)
    requires t < |s.threads| && s.threads[t].StartHasControl?
    ensures CanStep(s, AllocateProxy(t, port)) <==>
            8080 <= port < 8580 && port != s.threads[t].control && IsFree(s, port)
  {
    FreeExactly(s, port);
    var chosen := Set(s, t, StartAllocated(s.threads[t].project, s.threads[t].control, port));
    assert 8080 <= port < 8580 && port != s.threads[t].control && IsFree(s, port) ==>
             Step(s, AllocateProxy(t, port), chosen);
  }

  /** A stop goroutine goes on to clean up when it sees the process dead, and otherwise only by sending a kill. */
  lemma {:induction false} StopDecides(s: State, t: nat)
    requires t < |s.threads| && s.threads[t].StopPolling?
    ensures CanStep(s, StopGone(t)) <==> !Alive(s, s.threads[t].pid)
    ensures CanStep(s, StopForce(t)) <==> Alive(s, s.threads[t].pid)
  {
    var next := Set(s, t, StopCleaning(s.threads[t].project, s.threads[t].pid));
    assert !Alive(s, s.threads[t].pid) ==> Step(s, StopGone(t), next);
    assert Alive(s, s.threads[t].pid) ==> Step(s, StopForce(t), next);
  }

  /** A start takes the lock, and a stop looks the project up and later cleans up, only while nobody has the lock; a
      stop goes on only for a project with an entry. */
  lemma {:induction false} LockIsRespected(s: State, t: nat)
    requires t < |s.threads|
    ensures CanStep(s, Acquire(t)) <==> s.threads[t].StartWaiting? && s.lock.None?
    ensures CanStep(s, StopRemove(t)) <==> s.threads[t].StopCleaning? && s.lock.None?
    ensures CanStep(s, StopRunning(t)) <==>
            s.threads[t].StopAsked? && s.lock.None? && s.threads[t].project in s.reg
    ensures CanStep(s, StopNotRunning(t)) <==>
            s.threads[t].StopAsked? && s.lock.None? && !IsRunning(s, s.threads[t].project)
  {
    var th := s.threads[t];
    if th.StartWaiting? && s.lock.None? {
      assert Step(s, Acquire(t), Set(s, t, StartLocked(th.project)).(lock := Some(t)));
    }
    if th.StopCleaning? && s.lock.None? {
      assert Step(s, StopRemove(t), Set(s, t, Finished).(reg := RemoveIfPID(s.reg, th.project, th.pid)));
    }
    if th.StopAsked? && s.lock.None? {
      if th.project in s.reg {
        assert Step(s, StopRunning(t), Set(s, t, StopPolling(th.project, s.reg[th.project].pid)));
      }
      if !IsRunning(s, th.project) {
        assert Step(s, StopNotRunning(t), Set(s, t, Finished));
      }
    }
  }
}
