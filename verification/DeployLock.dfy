/**
 The per-app deploy lock (crates/riku-deploy/src/lock.rs) as a transition system
 over any number of processes.

 One `Action` is one system call or one step of the clock. A forked child can
 hold a duplicate of a lock file descriptor until it execs, so closing the file
 releases the lock only when no duplicate is left.
 */
module DeployLock {
  import opened Wrappers
  import opened Text

  // Durations are in milliseconds.
  const CONTENTION_GRACE: nat := 1_000
  const RETRY_INTERVAL: nat := 10
  const HEALTHCHECK_WAIT: nat := 120_000
  const RESTART_WAIT: nat := HEALTHCHECK_WAIT + 30_000

  datatype Holder = Operation | Restart

  function Tag(holder: Holder): string {
    match holder
    case Operation => "operation"
    case Restart => "restart"
  }

  /** Whether a read of the lock file, `None` when it failed, names a restart. */
  predicate HeldByRestart(content: Option<string>) {
    content.Some? && Trim(content.value) == Tag(Restart)
  }

  predicate KeepWaiting(waited: nat, restartWait: nat, content: Option<string>) {
    waited < CONTENTION_GRACE || (waited < restartWait && HeldByRestart(content))
  }

  /** `acquire`, `acquire_for_deploy`, `acquire_for_restart` and the probe `is_locked`. */
  datatype Caller = Plain | Deploy | Supervisor | Probe

  function HolderOf(caller: Caller): Holder { if caller == Supervisor then Restart else Operation }

  function RestartWaitOf(caller: Caller): nat { if caller == Deploy then RESTART_WAIT else 0 }

  datatype Phase =
    | Trying                            // the lock file is open, the first flock is next
    | Blocked                           // the first flock would block
    | Polling(start: nat)               // in the retry loop, before the next flock
    | Contended(start: nat)             // a retried flock would block
    | Reading(start: nat, waited: nat)  // past the grace, the tag is read next
    | Locked                            // flock granted, nothing recorded yet
    | Writing(written: nat)             // tag truncated and so many characters written
    | Recorded                          // the caller holds the lock
    | Probing                           // a probe was granted the lock for an instant
    | Refused(waited: nat)
    | Errored
    | Done(locked: bool)

  predicate Closed(phase: Phase) { phase.Refused? || phase.Errored? || phase.Done? }

  predicate Holds(phase: Phase) { phase.Locked? || phase.Writing? || phase.Recorded? || phase.Probing? }

  type Pid = nat

  datatype Proc = Proc(caller: Caller, phase: Phase, dups: nat, recorded: bool)

  datatype State = State(now: nat, procs: map<Pid, Proc>, holder: Option<Pid>, tag: string)

  datatype Action =
    | Tick(ms: nat)
    | Start(pid: Pid, caller: Caller)
    | Flock(pid: Pid)
    | EnterRetry(pid: Pid)
    | Elapsed(pid: Pid)
    | ReadTag(pid: Pid, readable: bool)
    | Truncate(pid: Pid)
    | WriteTag(pid: Pid, chars: nat)
    | FinishRecord(pid: Pid)
    | Release(pid: Pid)
    | ProbeUnlock(pid: Pid)
    | Abort(pid: Pid)  // an error or a crash closes the file, in any phase
    | Fork(pid: Pid)
    | Exec(pid: Pid)

  function At(s: State, pid: Pid): Option<Proc> { if pid in s.procs then Some(s.procs[pid]) else None }

  function Move(s: State, pid: Pid, phase: Phase): State
    requires pid in s.procs
  {
    s.(procs := s.procs[pid := s.procs[pid].(phase := phase)])
  }

  /** Closes the file of `pid`: the lock goes with it unless a child still has a duplicate. */
  function Close(s: State, pid: Pid, phase: Phase): State
    requires pid in s.procs
  {
    Move(s, pid, phase).(holder := if s.holder == Some(pid) && s.procs[pid].dups == 0 then None else s.holder)
  }

  function NextFlock(s: State, pid: Pid): Option<State>
    requires pid in s.procs
  {
    var proc := s.procs[pid];
    if !proc.phase.Trying? && !proc.phase.Polling? then None
    else if s.holder.None? then
      Some(Move(s, pid, if proc.caller == Probe then Probing else Locked).(holder := Some(pid)))
    else if proc.caller == Probe then Some(Close(s, pid, Done(true)))
    else if proc.phase.Trying? then Some(Move(s, pid, Blocked))
    else Some(Move(s, pid, Contended(proc.phase.start)))
  }

  function NextElapsed(s: State, pid: Pid): Option<State>
    requires pid in s.procs
  {
    var proc := s.procs[pid];
    if !proc.phase.Contended? || s.now < proc.phase.start then None
    else
      var waited := s.now - proc.phase.start;
      if waited < CONTENTION_GRACE then Some(Move(s, pid, Polling(proc.phase.start)))
      else if waited < RestartWaitOf(proc.caller) then Some(Move(s, pid, Reading(proc.phase.start, waited)))
      else Some(Close(s, pid, Refused(waited)))
  }

  function NextRead(s: State, pid: Pid, readable: bool): Option<State>
    requires pid in s.procs
  {
    var proc := s.procs[pid];
    if !proc.phase.Reading? then None
    else if KeepWaiting(proc.phase.waited, RestartWaitOf(proc.caller), if readable then Some(s.tag) else None)
    then Some(Move(s, pid, Polling(proc.phase.start)))
    else Some(Close(s, pid, Refused(proc.phase.waited)))
  }

  function NextWrite(s: State, pid: Pid, chars: nat): Option<State>
    requires pid in s.procs
  {
    var proc := s.procs[pid];
    var text := Tag(HolderOf(proc.caller));
    if !proc.phase.Writing? || proc.phase.written + chars > |text| then None
    else
      var written := proc.phase.written + chars;
      Some(Move(s, pid, Writing(written)).(tag := s.tag + text[written - chars..written]))
  }

  /** The state after `action`, or `None` when the action cannot happen in `s`. */
  function Next(s: State, action: Action): Option<State> {
    if action.Tick? then Some(s.(now := s.now + action.ms))
    else if action.Start? then
      if action.pid in s.procs then None
      else Some(s.(procs := s.procs[action.pid := Proc(action.caller, Trying, 0, false)]))
    else if action.pid !in s.procs then None
    else
      var pid, proc := action.pid, s.procs[action.pid];
      match action
      case Flock(_) => NextFlock(s, pid)
      case EnterRetry(_) => if proc.phase.Blocked? then Some(Move(s, pid, Polling(s.now))) else None
      case Elapsed(_) => NextElapsed(s, pid)
      case ReadTag(_, readable) => NextRead(s, pid, readable)
      case Truncate(_) => if proc.phase.Locked? then Some(Move(s, pid, Writing(0)).(tag := "")) else None
      case WriteTag(_, chars) => NextWrite(s, pid, chars)
      case FinishRecord(_) =>
        if proc.phase == Writing(|Tag(HolderOf(proc.caller))|)
        then Some(s.(procs := s.procs[pid := proc.(phase := Recorded, recorded := true)]))
        else None
      case Release(_) => if proc.phase.Recorded? then Some(Close(s, pid, Done(true))) else None
      case ProbeUnlock(_) =>
        if proc.phase.Probing? then Some(Move(s, pid, Done(false)).(holder := None)) else None
      case Abort(_) => if Closed(proc.phase) then None else Some(Close(s, pid, Errored))
      case Fork(_) =>
        if Closed(proc.phase) then None
        else Some(s.(procs := s.procs[pid := proc.(dups := proc.dups + 1)]))
      case Exec(_) =>
        if proc.dups == 0 then None
        else
          var left := s.(procs := s.procs[pid := proc.(dups := proc.dups - 1)]);
          Some(if Closed(proc.phase) && proc.dups == 1 && s.holder == Some(pid) then left.(holder := None) else left)
  }

  /** Any tag may be left over in the file from earlier holders. */
  predicate Initial(s: State) { s.procs == map[] && s.holder.None? }

  /** A run of the lock: states joined by actions. */
  ghost predicate Run(states: seq<State>, actions: seq<Action>) {
    && |states| == |actions| + 1
    && Initial(states[0])
    && forall i | 0 <= i < |actions| :: Next(states[i], actions[i]) == Some(states[i + 1])
  }

  // ---- The invariant ----

  /** What the phase of one process says about the lock and the tag. */
  predicate ProcOk(s: State, pid: Pid)
    requires pid in s.procs
  {
    var proc := s.procs[pid];
    var text := Tag(HolderOf(proc.caller));
    && (Holds(proc.phase) ==> s.holder == Some(pid))
    && (proc.phase.Recorded? ==> proc.recorded)
    && (proc.recorded ==> proc.phase.Recorded? || Closed(proc.phase))
    && (proc.phase.Writing? ==> proc.phase.written <= |text| && s.tag == text[..proc.phase.written])
    && (proc.recorded && s.holder == Some(pid) ==> s.tag == text)
    && (proc.phase.Probing? ==> proc.caller == Probe)
    && (proc.caller == Probe ==> proc.phase.Trying? || proc.phase.Probing? || Closed(proc.phase))
    && (proc.phase.Reading? ==> CONTENTION_GRACE <= proc.phase.waited < RestartWaitOf(proc.caller))
    && (proc.phase.Refused? ==> CONTENTION_GRACE <= proc.phase.waited && proc.caller != Probe)
  }

  ghost predicate Inv(s: State) {
    && (s.holder.Some? ==>
          && s.holder.value in s.procs
          && var proc := s.procs[s.holder.value];
             Holds(proc.phase) || (Closed(proc.phase) && proc.dups > 0))
    && forall pid | pid in s.procs :: ProcOk(s, pid)
  }

  lemma {:induction false} FlockKeepsInv(s: State, pid: Pid, t: State)
    requires Inv(s) && pid in s.procs && NextFlock(s, pid) == Some(t)
    ensures Inv(t)
  {
    forall q | q in t.procs
      ensures ProcOk(t, q)
    {
      assert ProcOk(s, q);
    }
  }

  lemma {:induction false} ElapsedKeepsInv(s: State, pid: Pid, t: State)
    requires Inv(s) && pid in s.procs && NextElapsed(s, pid) == Some(t)
    ensures Inv(t)
  {
    forall q | q in t.procs
      ensures ProcOk(t, q)
    {
      assert ProcOk(s, q);
    }
  }

  lemma {:induction false} ReadKeepsInv(s: State, pid: Pid, readable: bool, t: State)
    requires Inv(s) && pid in s.procs && NextRead(s, pid, readable) == Some(t)
    ensures Inv(t)
  {
    forall q | q in t.procs
      ensures ProcOk(t, q)
    {
      assert ProcOk(s, q) && ProcOk(s, pid);
    }
  }

  /** A step that rewrites the tag is taken by the holder, so no other process depends on the tag. */
  lemma {:induction false} TagStepKeepsInv(s: State, action: Action, t: State)
    requires Inv(s) && Next(s, action) == Some(t) && (action.Truncate? || action.WriteTag?)
    ensures Inv(t)
  {
    assert ProcOk(s, action.pid);
    var text := Tag(HolderOf(s.procs[action.pid].caller));
    if action.WriteTag? {
      var k := s.procs[action.pid].phase.written;
      assert text[..k] + text[k..k + action.chars] == text[..k + action.chars];
    }
    forall q | q in t.procs
      ensures ProcOk(t, q)
    {
      assert ProcOk(s, q);
    }
  }

  lemma {:induction false} FinishKeepsInv(s: State, pid: Pid, t: State)
    requires Inv(s) && Next(s, FinishRecord(pid)) == Some(t)
    ensures Inv(t)
  {
    var text := Tag(HolderOf(s.procs[pid].caller));
    assert text[..|text|] == text;
    forall q | q in t.procs
      ensures ProcOk(t, q)
    {
      assert ProcOk(s, q) && ProcOk(s, pid);
    }
  }

  lemma {:induction false} CloseKeepsInv(s: State, pid: Pid, phase: Phase)
    requires Inv(s) && pid in s.procs && (phase.Done? || phase.Errored?)
    ensures Inv(Close(s, pid, phase))
  {
    var t := Close(s, pid, phase);
    forall q | q in t.procs
      ensures ProcOk(t, q)
    {
      assert ProcOk(s, q);
    }
  }

  lemma {:induction false} UnlockKeepsInv(s: State, action: Action, t: State)
    requires Inv(s) && Next(s, action) == Some(t) && (action.ProbeUnlock? || action.Exec?)
    ensures Inv(t)
  {
    forall q | q in t.procs
      ensures ProcOk(t, q)
    {
      assert ProcOk(s, q) && ProcOk(s, action.pid);
    }
  }

  lemma {:induction false} QuietStepKeepsInv(s: State, action: Action, t: State)
    requires Inv(s) && Next(s, action) == Some(t)
    requires action.Tick? || action.Start? || action.EnterRetry? || action.Fork?
    ensures Inv(t)
  {
    forall q | q in t.procs
      ensures ProcOk(t, q)
    {
      assert q in s.procs ==> ProcOk(s, q);
    }
  }

  lemma {:induction false} StepKeepsInv(s: State, action: Action, t: State)
    requires Inv(s) && Next(s, action) == Some(t)
    ensures Inv(t)
  {
    match action
    case Flock(pid) => FlockKeepsInv(s, pid, t);
    case Elapsed(pid) => ElapsedKeepsInv(s, pid, t);
    case ReadTag(pid, readable) => ReadKeepsInv(s, pid, readable, t);
    case FinishRecord(pid) => FinishKeepsInv(s, pid, t);
    case Truncate(_) => TagStepKeepsInv(s, action, t);
    case WriteTag(_, _) => TagStepKeepsInv(s, action, t);
    case Release(pid) => CloseKeepsInv(s, pid, Done(true));
    case Abort(pid) => CloseKeepsInv(s, pid, Errored);
    case ProbeUnlock(_) => UnlockKeepsInv(s, action, t);
    case Exec(_) => UnlockKeepsInv(s, action, t);
    case _ => QuietStepKeepsInv(s, action, t);
  }

  lemma {:induction false} RunKeepsInv(states: seq<State>, actions: seq<Action>, i: nat)
    requires Run(states, actions) && i < |states|
    ensures Inv(states[i])
  {
    if i > 0 {
      RunKeepsInv(states, actions, i - 1);
      StepKeepsInv(states[i - 1], actions[i - 1], states[i]);
    }
  }

  // ---- What every run guarantees ----

  /** At most one process holds the lock, and a holder that finished `record_holder` is named by the tag. */
  lemma {:induction false} OneHolderAndItIsNamed(states: seq<State>, actions: seq<Action>, i: nat, p: Pid, q: Pid)
    requires Run(states, actions) && i < |states| && p in states[i].procs && q in states[i].procs
    ensures Holds(states[i].procs[p].phase) && Holds(states[i].procs[q].phase) ==> p == q
    ensures states[i].procs[p].recorded && states[i].holder == Some(p) ==>
              states[i].tag == Tag(HolderOf(states[i].procs[p].caller))
  {
    RunKeepsInv(states, actions, i);
    assert ProcOk(states[i], p) && ProcOk(states[i], q);
  }

  /** Only the process that holds the lock ever changes the tag. */
  lemma {:induction false} OnlyTheHolderWritesTheTag(states: seq<State>, actions: seq<Action>, i: nat)
    requires Run(states, actions) && i < |actions| && states[i].tag != states[i + 1].tag
    ensures !actions[i].Tick? && states[i].holder == Some(actions[i].pid)
    ensures actions[i].pid in states[i].procs && Holds(states[i].procs[actions[i].pid].phase)
  {
    RunKeepsInv(states, actions, i);
    assert Next(states[i], actions[i]) == Some(states[i + 1]);
    assert ProcOk(states[i], actions[i].pid);
  }

  /** A restart that finished recording itself holds the lock, through its own file or a child's duplicate. */
  ghost predicate RecordedRestartHolds(s: State) {
    && s.holder.Some? && s.holder.value in s.procs
    && var proc := s.procs[s.holder.value];
       proc.caller == Supervisor && proc.recorded
  }

  /** The step refuses `pid`: it reads the tag while no recorded restart holds the lock, or cannot read it. */
  ghost predicate RefusesDeploy(s: State, action: Action, t: State, pid: Pid) {
    && pid in s.procs && !s.procs[pid].phase.Refused?
    && pid in t.procs && t.procs[pid].phase.Refused?
    && action.ReadTag? && action.pid == pid
    && (action.readable ==> !RecordedRestartHolds(s))
  }

  lemma {:induction false} ClosedStaysClosed(s: State, action: Action, t: State, pid: Pid)
    requires Next(s, action) == Some(t) && pid in s.procs && Closed(s.procs[pid].phase)
    ensures pid in t.procs && t.procs[pid].phase == s.procs[pid].phase && t.procs[pid].caller == s.procs[pid].caller
  {
  }

  lemma {:induction false} OnlyReadsRefuseEarly(s: State, action: Action, t: State, pid: Pid)
    requires Next(s, action) == Some(t)
    requires pid in t.procs && t.procs[pid].phase.Refused? && t.procs[pid].phase.waited < RESTART_WAIT
    requires t.procs[pid].caller == Deploy
    requires !(pid in s.procs && s.procs[pid].phase == t.procs[pid].phase)
    ensures action.ReadTag? && action.pid == pid && pid in s.procs && s.procs[pid].phase.Reading?
  {
    hide KeepWaiting, Tag;
  }

  lemma {:induction false} RefusedNow(s: State, action: Action, t: State, pid: Pid)
    requires Inv(s) && Next(s, action) == Some(t)
    requires pid in t.procs && t.procs[pid].phase.Refused? && t.procs[pid].phase.waited < RESTART_WAIT
    requires t.procs[pid].caller == Deploy
    requires !(pid in s.procs && s.procs[pid].phase == t.procs[pid].phase)
    ensures RefusesDeploy(s, action, t, pid)
  {
    OnlyReadsRefuseEarly(s, action, t, pid);
    if action.readable && RecordedRestartHolds(s) {
      assert ProcOk(s, s.holder.value) && ProcOk(s, pid);
      TrimIsTrimmed(Tag(Restart));
    }
  }

  /**
   A deploy refused before `RESTART_WAIT` waited out the grace and was refused
   by reading the lock file at an instant when no fully recorded restart held
   the lock, unless that read itself failed. This holds under every
   interleaving with other contenders, probes, forks and crashes.
   */
  lemma {:induction false} RefusedDeployFoundNoRecordedRestart(
      states: seq<State>, actions: seq<Action>, pid: Pid)
    requires Run(states, actions)
    requires pid in states[|actions|].procs && states[|actions|].procs[pid].caller == Deploy
    requires states[|actions|].procs[pid].phase.Refused?
    ensures CONTENTION_GRACE <= states[|actions|].procs[pid].phase.waited
    ensures states[|actions|].procs[pid].phase.waited < RESTART_WAIT ==>
              exists i | 0 <= i < |actions| :: RefusesDeploy(states[i], actions[i], states[i + 1], pid)
  {
    RunKeepsInv(states, actions, |actions|);
    assert ProcOk(states[|actions|], pid);
    if states[|actions|].procs[pid].phase.waited < RESTART_WAIT {
      RefusalHappened(states, actions, pid);
    }
  }

  lemma {:induction false} RefusalHappened(states: seq<State>, actions: seq<Action>, pid: Pid)
    requires Run(states, actions)
    requires pid in states[|actions|].procs && states[|actions|].procs[pid].caller == Deploy
    requires states[|actions|].procs[pid].phase.Refused?
    requires states[|actions|].procs[pid].phase.waited < RESTART_WAIT
    ensures exists i | 0 <= i < |actions| :: RefusesDeploy(states[i], actions[i], states[i + 1], pid)
  {
    var n := |actions| - 1;
    assert actions != [];
    var s, t := states[n], states[n + 1];
    assert Next(s, actions[n]) == Some(t);
    if pid in s.procs && s.procs[pid].phase == t.procs[pid].phase {
      ClosedStaysClosed(s, actions[n], t, pid);
      RefusalHappened(states[..n + 1], actions[..n], pid);
      var i :| 0 <= i < n && RefusesDeploy(states[..n + 1][i], actions[..n][i], states[..n + 1][i + 1], pid);
      assert RefusesDeploy(states[i], actions[i], states[i + 1], pid);
    } else {
      RunKeepsInv(states, actions, n);
      RefusedNow(s, actions[n], t, pid);
      assert RefusesDeploy(states[n], actions[n], states[n + 1], pid);
    }
  }

  /**
   Exactly when a deploy past its grace is refused although a restart has the
   lock, itself or through a child's duplicate: the lock file cannot be read, or
   the restart has not recorded itself and the text in the file is not its tag.
   While the restart is at work that text is left over until it truncates the
   file, and is short of the tag until it has written all of it.
   */
  lemma {:induction false} RestartIsOverlookedIff(s: State, pid: Pid, readable: bool, restart: Pid, t: State)
    requires Inv(s) && pid in s.procs && s.procs[pid].caller == Deploy && s.procs[pid].phase.Reading?
    requires s.holder == Some(restart) && restart in s.procs && s.procs[restart].caller == Supervisor
    requires Next(s, ReadTag(pid, readable)) == Some(t)
    ensures t.procs[pid].phase.Refused? <==>
            !readable || (!s.procs[restart].recorded && Trim(s.tag) != Tag(Restart))
    ensures Holds(s.procs[restart].phase) ==>
              (t.procs[pid].phase.Refused? <==>
               !readable ||
               match s.procs[restart].phase
               case Locked => Trim(s.tag) != Tag(Restart)
               case Writing(written) => written < |Tag(Restart)|
               case _ => false)
  {
    assert ProcOk(s, pid) && ProcOk(s, restart);
    var text := Tag(Restart);
    TrimIsTrimmed(text);
    if s.procs[restart].phase.Writing? {
      var written := s.procs[restart].phase.written;
      TrimNotLonger(s.tag);
      assert written == |text| ==> s.tag == text;
    }
  }

  lemma {:induction false} TrimNotLonger(s: string)
    ensures |Trim(s)| <= |s|
  {
    TrimStartNotLonger(s);
    TrimEndIsPrefix(TrimStart(s));
  }

  lemma {:induction false} TrimStartNotLonger(s: string)
    ensures |TrimStart(s)| <= |s|
  {
    if s != "" && IsWhite(s[0]) {
      TrimStartNotLonger(s[1..]);
    }
  }

  ghost predicate RefusedDuringRestart(s: State, restart: Pid, deploy: Pid) {
    && s.holder == Some(restart)
    && restart in s.procs && s.procs[restart].caller == Supervisor && Holds(s.procs[restart].phase)
    && deploy in s.procs && s.procs[deploy].caller == Deploy && s.procs[deploy].phase == Refused(CONTENTION_GRACE)
  }

  /** So the promise to wait for a restart has a gap: a deploy can be refused while a restart holds the lock. */
  lemma {:induction false} ADeployCanBeRefusedDuringARestart()
    ensures exists states: seq<State>, actions: seq<Action> ::
              Run(states, actions) && RefusedDuringRestart(states[|actions|], 0, 1)
  {
    var states, actions := DeployReadsUnder(Supervisor, "");
    var s := states[|actions|];
    var t := Move(s, 1, Refused(CONTENTION_GRACE));
    assert Next(s, ReadTag(1, true)) == Some(t);
    Extend(states, actions, ReadTag(1, true), t);
    assert (states + [t])[|actions + [ReadTag(1, true)]|] == t;
  }

  /**
   The other half of the promise, to wait for nothing but a restart: exactly when a
   deploy past its grace waits on although the holder is no restart. The file names
   an earlier restart still, because the holder is a probe, or has neither
   truncated the file nor recorded itself yet.
   */
  lemma {:induction false} WaitsForAnotherIff(s: State, pid: Pid, readable: bool, holder: Pid, t: State)
    requires Inv(s) && pid in s.procs && s.procs[pid].caller == Deploy && s.procs[pid].phase.Reading?
    requires s.holder == Some(holder) && holder in s.procs && s.procs[holder].caller != Supervisor
    requires Next(s, ReadTag(pid, readable)) == Some(t)
    ensures t.procs[pid].phase.Polling? <==>
            && readable && Trim(s.tag) == Tag(Restart)
            && !s.procs[holder].recorded && !s.procs[holder].phase.Writing?
  {
    assert ProcOk(s, pid) && ProcOk(s, holder);
    TrimIsTrimmed(Tag(Operation));
    if s.procs[holder].phase.Writing? {
      var written := s.procs[holder].phase.written;
      assert Tag(Operation)[..|Tag(Operation)|] == Tag(Operation);
      if written < |Tag(Operation)| {
        BeginningNamesNoRestart(Operation, written);
      }
    }
  }

  ghost predicate WaitsWithoutARestart(s: State, deploy: Pid) {
    && deploy in s.procs && s.procs[deploy].caller == Deploy && s.procs[deploy].phase.Polling?
    && s.now >= s.procs[deploy].phase.start + CONTENTION_GRACE
    && forall pid | pid in s.procs :: s.procs[pid].caller != Supervisor
  }

  /** Past its grace a deploy can wait on in a run without any restart, on a tag left over in the file. */
  lemma {:induction false} ADeployCanWaitWithoutARestart()
    ensures exists states: seq<State>, actions: seq<Action> ::
              Run(states, actions) && WaitsWithoutARestart(states[|actions|], 1)
  {
    var states, actions := DeployReadsUnder(Plain, Tag(Restart));
    var s := states[|actions|];
    var t := Move(s, 1, Polling(0));
    assert Next(s, ReadTag(1, true)) == Some(t) by {
      TrimIsTrimmed(Tag(Restart));
      assert KeepWaiting(CONTENTION_GRACE, RESTART_WAIT, Some(s.tag));
      hide KeepWaiting, Tag;
    }
    hide Tag, Next;
    Extend(states, actions, ReadTag(1, true), t);
    assert (states + [t])[|actions + [ReadTag(1, true)]|] == t;
  }

  lemma {:induction false} Extend(states: seq<State>, actions: seq<Action>, action: Action, t: State)
    requires Run(states, actions) && Next(states[|actions|], action) == Some(t)
    ensures Run(states + [t], actions + [action])
  {
    var states', actions' := states + [t], actions + [action];
    forall i | 0 <= i < |actions'|
      ensures Next(states'[i], actions'[i]) == Some(states'[i + 1])
    {
      if i < |actions| {
        assert Next(states[i], actions[i]) == Some(states[i + 1]);
      }
    }
  }

  lemma {:induction false} HasTheLock(caller: Caller, tag: string) returns (states: seq<State>, actions: seq<Action>)
    requires caller != Probe
    ensures Run(states, actions) && |actions| == 2
    ensures states[2] == State(0, map[0 := Proc(caller, Locked, 0, false)], Some(0), tag)
  {
    var s0 := State(0, map[], None, tag);
    var s1 := s0.(procs := s0.procs[0 := Proc(caller, Trying, 0, false)]);
    var s2 := Move(s1, 0, Locked).(holder := Some(0));
    states, actions := [s0, s1, s2], [Start(0, caller), Flock(0)];
    assert Next(s0, actions[0]) == Some(s1);
    assert Next(s1, actions[1]) == Some(s2);
    assert s2.procs == map[0 := Proc(caller, Locked, 0, false)];
  }

  lemma {:induction false} DeployPolls(caller: Caller, tag: string) returns (states: seq<State>, actions: seq<Action>)
    requires caller != Probe
    ensures Run(states, actions)
    ensures var s := states[|actions|];
            && s.now == CONTENTION_GRACE && s.tag == tag && s.holder == Some(0) && s.procs.Keys == {0, 1}
            && s.procs[0] == Proc(caller, Locked, 0, false) && s.procs[1] == Proc(Deploy, Polling(0), 0, false)
  {
    states, actions := HasTheLock(caller, tag);
    var s2 := states[2];
    var s3 := s2.(procs := s2.procs[1 := Proc(Deploy, Trying, 0, false)]);
    var s4, s5 := Move(s3, 1, Blocked), Move(s3, 1, Polling(0));
    var s6 := s5.(now := CONTENTION_GRACE);
    assert Move(s4, 1, Polling(0)).procs == s5.procs;
    assert Next(s4, EnterRetry(1)) == Some(s5);
    Extend(states, actions, Start(1, Deploy), s3);
    states, actions := states + [s3], actions + [Start(1, Deploy)];
    Extend(states, actions, Flock(1), s4);
    states, actions := states + [s4], actions + [Flock(1)];
    Extend(states, actions, EnterRetry(1), s5);
    states, actions := states + [s5], actions + [EnterRetry(1)];
    Extend(states, actions, Tick(CONTENTION_GRACE), s6);
    states, actions := states + [s6], actions + [Tick(CONTENTION_GRACE)];
  }

  lemma {:induction false} DeployReadsUnder(caller: Caller, tag: string)
      returns (states: seq<State>, actions: seq<Action>)
    requires caller != Probe
    ensures Run(states, actions)
    ensures var s := states[|actions|];
            && s.now == CONTENTION_GRACE && s.tag == tag && s.holder == Some(0) && s.procs.Keys == {0, 1}
            && s.procs[0] == Proc(caller, Locked, 0, false)
            && s.procs[1] == Proc(Deploy, Reading(0, CONTENTION_GRACE), 0, false)
  {
    states, actions := DeployPolls(caller, tag);
    var s6 := states[|actions|];
    var s7 := Move(s6, 1, Contended(0));
    var s8 := Move(s7, 1, Reading(0, CONTENTION_GRACE));
    Extend(states, actions, Flock(1), s7);
    states, actions := states + [s7], actions + [Flock(1)];
    Extend(states, actions, Elapsed(1), s8);
    states, actions := states + [s8], actions + [Elapsed(1)];
  }

  // ---- What a flock answers ----

  /** Whoever asks, first or again, gets the lock if and only if no file has it; nothing else changes hands. */
  lemma {:induction false} FlockAnswers(s: State, pid: Pid, t: State)
    requires Inv(s) && pid in s.procs && Next(s, Flock(pid)) == Some(t)
    ensures t.procs[pid].phase.Locked? <==> s.procs[pid].caller != Probe && s.holder.None?
    ensures t.procs[pid].phase.Probing? <==> s.procs[pid].caller == Probe && s.holder.None?
    ensures t.holder == (if s.holder.None? then Some(pid) else s.holder) && t.tag == s.tag
    ensures s.holder.Some? && s.procs[pid].caller != Probe ==>
              t.procs[pid].phase == match s.procs[pid].phase case Polling(start) => Contended(start) case _ => Blocked
  {
    assert ProcOk(s, pid);
  }

  /** In the retry loop, or refused by it. */
  predicate Turned(phase: Phase) {
    phase.Blocked? || phase.Polling? || phase.Contended? || phase.Reading? || phase.Refused?
  }

  /** The last flock of `pid` among the first `n` actions found the lock held by another. */
  ghost predicate LastFlockFailed(states: seq<State>, actions: seq<Action>, n: nat, pid: Pid)
    requires n <= |actions| && |states| == |actions| + 1
  {
    exists i | 0 <= i < n ::
      && actions[i] == Flock(pid) && states[i].holder.Some? && states[i].holder != Some(pid)
      && forall j | i < j < n :: actions[j] != Flock(pid)
  }

  lemma {:induction false} OnlyFlocksTurn(s: State, action: Action, t: State, pid: Pid)
    requires Inv(s) && Next(s, action) == Some(t) && pid in t.procs && Turned(t.procs[pid].phase)
    ensures pid in s.procs
    ensures action == Flock(pid) ==> s.holder.Some? && s.holder != Some(pid)
    ensures action != Flock(pid) ==> Turned(s.procs[pid].phase)
  {
    hide KeepWaiting, Tag;
    if action == Flock(pid) {
      assert ProcOk(s, pid);
    }
  }

  /**
   On every run, whoever is in the retry loop or was refused by it found the lock
   held by another at its last flock: nobody is refused a lock that was free.
   */
  lemma {:induction false} TurnedFoundTheLockHeld(states: seq<State>, actions: seq<Action>, n: nat, pid: Pid)
    requires Run(states, actions) && n <= |actions|
    requires pid in states[n].procs && Turned(states[n].procs[pid].phase)
    ensures LastFlockFailed(states, actions, n, pid)
  {
    assert n > 0;
    var s, action := states[n - 1], actions[n - 1];
    RunKeepsInv(states, actions, n - 1);
    assert Next(s, action) == Some(states[n]);
    OnlyFlocksTurn(s, action, states[n], pid);
    hide Next, Inv;
    if action != Flock(pid) {
      TurnedFoundTheLockHeld(states, actions, n - 1, pid);
      var i :| 0 <= i < n - 1 && actions[i] == Flock(pid) && states[i].holder.Some? && states[i].holder != Some(pid)
            && forall j | i < j < n - 1 :: actions[j] != Flock(pid);
      assert forall j | i < j < n :: actions[j] != Flock(pid);
    }
  }

  /** The content of the lock file as a read finds it, `None` when it fails. */
  function ReadOf(s: State, readable: bool): Option<string> { if readable then Some(s.tag) else None }

  /**
   The steps after a contended flock are one turn of `retry_acquire`: whatever the
   caller, it polls on if and only if `keep_waiting` says so of the time since it
   entered the loop and of what the file reads as; otherwise it is refused.
   */
  lemma {:induction false} TurnsAreTheLoop(s: State, pid: Pid, t: State, readable: bool)
    requires Inv(s) && pid in s.procs && s.procs[pid].phase.Contended? && s.now >= s.procs[pid].phase.start
    requires t == if Next(s, Elapsed(pid)).Some? then Next(s, Elapsed(pid)).value else s
    ensures Next(s, Elapsed(pid)).Some?
    ensures var start := s.procs[pid].phase.start;
            var wait := KeepWaiting(s.now - start, RestartWaitOf(s.procs[pid].caller), ReadOf(s, readable));
            if t.procs[pid].phase.Reading?
            then && Next(t, ReadTag(pid, readable)).Some?
                 && Next(t, ReadTag(pid, readable)).value.procs[pid].phase ==
                    if wait then Polling(start) else Refused(s.now - start)
            else t.procs[pid].phase == if wait then Polling(start) else Refused(s.now - start)
  {
    assert ProcOk(s, pid);
  }

  /** Whoever was granted the lock can go on to record itself, in one write, and then is named by the tag. */
  lemma {:induction false} LockedCanRecord(s: State, pid: Pid) returns (a: State, b: State, t: State)
    requires Inv(s) && pid in s.procs && s.procs[pid].phase.Locked?
    ensures Next(s, Truncate(pid)) == Some(a)
    ensures Next(a, WriteTag(pid, |Tag(HolderOf(s.procs[pid].caller))|)) == Some(b)
    ensures Next(b, FinishRecord(pid)) == Some(t)
    ensures t.procs[pid].recorded && t.procs[pid].phase == Recorded && t.holder == Some(pid)
    ensures t.tag == if s.procs[pid].caller == Supervisor then "restart" else "operation"
  {
    var text := Tag(HolderOf(s.procs[pid].caller));
    assert ProcOk(s, pid);
    a := Next(s, Truncate(pid)).value;
    assert text[0..|text|] == text && "" + text == text;
    b := Next(a, WriteTag(pid, |text|)).value;
    t := Next(b, FinishRecord(pid)).value;
  }

  /** A child forked while the lock is held keeps it past the release, until it execs. */
  lemma {:induction false} ForkedChildKeepsTheLock(s: State, pid: Pid) returns (a: State, b: State, t: State)
    requires Inv(s) && pid in s.procs && s.procs[pid].phase == Recorded && s.procs[pid].dups == 0
    ensures Next(s, Fork(pid)) == Some(a) && Next(a, Release(pid)) == Some(b) && Next(b, Exec(pid)) == Some(t)
    ensures b.holder == Some(pid) && t.holder == None
    ensures Next(s, Release(pid)).Some? && Next(s, Release(pid)).value.holder == None
    ensures Next(t, Exec(pid)) == None
  {
    assert ProcOk(s, pid);
    a := Next(s, Fork(pid)).value;
    b := Next(a, Release(pid)).value;
    t := Next(b, Exec(pid)).value;
  }

  /** `keep_waiting`: everyone waits out a second; after it only a deploy waits, for two and a half minutes, while the file names a restart. */
  lemma {:induction false} KeepWaitingIs(waited: nat, caller: Caller, content: Option<string>)
    ensures KeepWaiting(waited, RestartWaitOf(caller), content) <==>
            waited < 1_000 || (caller == Deploy && waited < 150_000 && content.Some? && Trim(content.value) == "restart")
  {
  }

  /** A probe answers "locked" exactly when some file holds the lock at that instant; it never waits. */
  lemma {:induction false} ProbeAnswers(s: State, pid: Pid, t: State)
    requires pid in s.procs && s.procs[pid] == Proc(Probe, Trying, s.procs[pid].dups, false)
    requires Inv(s) && Next(s, Flock(pid)) == Some(t)
    ensures t.procs[pid].phase == Done(true) <==> s.holder.Some?
    ensures t.tag == s.tag && (s.holder.Some? ==> t.holder == s.holder)
  {
    assert ProcOk(s, pid);
  }

  /** A probe has the lock between its flock and its unlock, or died there and left a duplicate to a child. */
  predicate ProbeHasLock(s: State, pid: Pid)
    requires pid in s.procs
  {
    && s.procs[pid].caller == Probe
    && (s.procs[pid].phase.Probing? ||
        (s.procs[pid].phase.Errored? && s.procs[pid].dups > 0 && s.holder == Some(pid)))
  }

  ghost predicate ProbesHoldBriefly(s: State) {
    s.holder.Some? && s.holder.value in s.procs && s.procs[s.holder.value].caller == Probe ==>
      s.procs[s.holder.value].phase.Probing? || s.procs[s.holder.value].phase.Errored?
  }

  lemma {:induction false} StepHoldsBriefly(s: State, action: Action, t: State)
    requires Inv(s) && ProbesHoldBriefly(s) && Next(s, action) == Some(t)
    ensures ProbesHoldBriefly(t)
  {
    if !action.Tick? && action.pid in s.procs {
      assert ProcOk(s, action.pid);
    }
    if s.holder.Some? {
      assert ProcOk(s, s.holder.value);
    }
  }

  lemma {:induction false} RunHoldsBriefly(states: seq<State>, actions: seq<Action>, i: nat)
    requires Run(states, actions) && i < |states|
    ensures ProbesHoldBriefly(states[i])
  {
    if i > 0 {
      RunHoldsBriefly(states, actions, i - 1);
      RunKeepsInv(states, actions, i - 1);
      StepHoldsBriefly(states[i - 1], actions[i - 1], states[i]);
    }
  }

  /**
   On every run, the lock a probe reports belongs to another probe if and only
   if some probe is between its flock and its unlock, or was killed there and
   left a duplicate of its file to a child that still runs.
   */
  lemma {:induction false} ProbeSeesAProbeIff(states: seq<State>, actions: seq<Action>, i: nat, pid: Pid)
    requires Run(states, actions) && i < |actions| && actions[i] == Flock(pid)
    requires pid in states[i].procs && states[i].procs[pid].caller == Probe
    requires states[i + 1].procs[pid].phase == Done(true)
    ensures states[i].holder.Some? && states[i].holder.value in states[i].procs && states[i].holder != Some(pid)
    ensures states[i].procs[states[i].holder.value].caller == Probe <==>
            exists other | other in states[i].procs :: other != pid && ProbeHasLock(states[i], other)
  {
    var s := states[i];
    RunKeepsInv(states, actions, i);
    RunHoldsBriefly(states, actions, i);
    assert Next(s, actions[i]) == Some(states[i + 1]);
    assert ProcOk(s, pid) && s.holder.Some?;
    var holder := s.holder.value;
    assert ProcOk(s, holder);
    if s.procs[holder].caller == Probe {
      assert ProbeHasLock(s, holder);
    }
    forall other | other in s.procs && ProbeHasLock(s, other)
      ensures other == holder
    {
      assert ProcOk(s, other);
    }
  }

  /** Once a probe has unlocked, it never has the lock again, whatever duplicates of its file children keep. */
  lemma {:induction false} UnlockedProbesNeverHold(states: seq<State>, actions: seq<Action>, i: nat, pid: Pid, j: nat)
    requires Run(states, actions) && i < j < |states| && actions[i] == ProbeUnlock(pid)
    ensures pid in states[j].procs && states[j].procs[pid].phase == Done(false) && states[j].holder != Some(pid)
  {
    assert Next(states[j - 1], actions[j - 1]) == Some(states[j]);
    if j > i + 1 {
      UnlockedProbesNeverHold(states, actions, i, pid, j - 1);
      ClosedStaysClosed(states[j - 1], actions[j - 1], states[j], pid);
    }
  }

  ghost predicate ProbeSawAProbe(s: State, pid: Pid) {
    && pid in s.procs && s.procs[pid].phase == Done(true)
    && forall other | other in s.procs :: s.procs[other].caller == Probe
  }

  /**
   That file may be another probe's: the explicit unlock narrows the window but
   does not close it, so a probe can report a lock nobody but a probe has.
   */
  lemma {:induction false} AProbeCanSeeAnotherProbe()
    ensures exists states: seq<State>, actions: seq<Action> ::
              Run(states, actions) && ProbeSawAProbe(states[|actions|], 1)
  {
    var states, actions := ProbeHasTheLock();
    var s2 := states[2];
    var s3 := s2.(procs := s2.procs[1 := Proc(Probe, Trying, 0, false)]);
    var s4 := Move(s3, 1, Done(true));
    Extend(states, actions, Start(1, Probe), s3);
    states, actions := states + [s3], actions + [Start(1, Probe)];
    Extend(states, actions, Flock(1), s4);
    states, actions := states + [s4], actions + [Flock(1)];
    assert states[|actions|] == s4;
  }

  lemma {:induction false} ProbeHasTheLock() returns (states: seq<State>, actions: seq<Action>)
    ensures Run(states, actions) && |actions| == 2
    ensures states[2] == State(0, map[0 := Proc(Probe, Probing, 0, false)], Some(0), "")
  {
    var s0 := State(0, map[], None, "");
    var s1 := s0.(procs := s0.procs[0 := Proc(Probe, Trying, 0, false)]);
    var s2 := Move(s1, 0, Probing).(holder := Some(0));
    states, actions := [s0, s1, s2], [Start(0, Probe), Flock(0)];
    assert Next(s0, actions[0]) == Some(s1);
    assert Next(s1, actions[1]) == Some(s2);
    assert s2.procs == map[0 := Proc(Probe, Probing, 0, false)];
  }

  // ---- The retry loop ----

  datatype FlockCall = Granted | WouldBlock | Interrupted | Failure

  /** `try_flock`: retries while the call is interrupted; `last` bounds the interruptions. */
  method TryFlock(call: nat -> FlockCall, ghost last: nat) returns (r: FlockCall, tries: nat)
    requires call(last) != Interrupted
    ensures tries <= last && r == call(tries) && r != Interrupted
    ensures forall i | 0 <= i < tries :: call(i) == Interrupted
  {
    tries := 0;
    while call(tries) == Interrupted
      invariant tries <= last
      invariant forall i | 0 <= i < tries :: call(i) == Interrupted
      decreases last - tries
    {
      tries := tries + 1;
    }
    r := call(tries);
  }

  datatype Outcome = Acquired | GaveUp | FlockFailed

  /**
   What a contender meets at its n-th poll, from 1 on: the answer of `flock`,
   the time since the loop began, and what a read of the lock file gives.
   */
  datatype Environment = Environment(flock: nat -> FlockCall, elapsed: nat -> nat, read: nat -> Option<string>)

  /** Every sleep lasts at least the retry interval, and `flock` was retried past interruptions. */
  ghost predicate Sleeps(env: Environment) {
    && (forall n: nat :: env.elapsed(n + 1) >= env.elapsed(n) + RETRY_INTERVAL)
    && (forall n: nat :: env.flock(n) != Interrupted)
  }

  function MaxWait(restartWait: nat): nat {
    if restartWait < CONTENTION_GRACE then CONTENTION_GRACE else restartWait
  }

  /** The most polls a contender makes: the longest wait over the interval, rounded up. */
  function MaxPolls(restartWait: nat): nat {
    (MaxWait(restartWait) + RETRY_INTERVAL - 1) / RETRY_INTERVAL
  }

  lemma {:induction false} PollsTakeTime(env: Environment, n: nat)
    requires Sleeps(env)
    ensures env.elapsed(n) >= n * RETRY_INTERVAL
  {
    if n > 0 {
      PollsTakeTime(env, n - 1);
      assert env.elapsed(n - 1 + 1) >= env.elapsed(n - 1) + RETRY_INTERVAL;
    }
  }

  /**
   `retry_acquire`: polls until the lock is granted, the call fails or
   `KeepWaiting` says to stop. It gives up only after the grace, and makes at
   most `MaxPolls` polls even when every read names a restart.
   */
  method RetryAcquire(env: Environment, restartWait: nat) returns (r: Outcome, polls: nat)
    requires Sleeps(env)
    ensures 1 <= polls <= MaxPolls(restartWait)
    ensures forall n | 1 <= n < polls :: env.flock(n) == WouldBlock
              && KeepWaiting(env.elapsed(n), restartWait, env.read(n))
    ensures r.Acquired? <==> env.flock(polls) == Granted
    ensures r.FlockFailed? <==> env.flock(polls) == Failure
    ensures r.GaveUp? ==> env.elapsed(polls) >= CONTENTION_GRACE
    ensures r.GaveUp? ==> !KeepWaiting(env.elapsed(polls), restartWait, env.read(polls))
  {
    polls := 0;
    while true
      invariant 0 <= polls < MaxPolls(restartWait)
      invariant forall n | 1 <= n <= polls :: env.flock(n) == WouldBlock
                  && KeepWaiting(env.elapsed(n), restartWait, env.read(n))
      decreases MaxPolls(restartWait) - polls
    {
      polls := polls + 1;
      PollsTakeTime(env, polls);
      assert env.flock(polls) != Interrupted;
      if env.flock(polls) == Granted {
        return Acquired, polls;
      }
      if env.flock(polls) == Failure {
        return FlockFailed, polls;
      }
      if !KeepWaiting(env.elapsed(polls), restartWait, env.read(polls)) {
        return GaveUp, polls;
      }
    }
  }

  /** A plain acquire polls at most 100 times, a deploy at most 15000. */
  lemma {:induction false} PollLimits()
    ensures MaxPolls(RestartWaitOf(Plain)) == 100 && MaxPolls(RestartWaitOf(Supervisor)) == 100
    ensures MaxPolls(RestartWaitOf(Deploy)) == 15_000
  {
  }

  /** The lock file as its holder writes it. */
  class LockFile {
    var content: string

    /** `record_holder`: truncate, then write; a failure leaves the old text or a strict beginning of the tag. */
    method RecordHolder(holder: Holder) returns (ok: bool)
      modifies this
      ensures ok ==> content == Tag(holder)
      ensures !ok ==> content == old(content) || content < Tag(holder)
      ensures !ok && !HeldByRestart(Some(old(content))) ==> !HeldByRestart(Some(content))
    {
      ok := *;
      if !ok {
        return;
      }
      content := "";
      var written: nat :| written <= |Tag(holder)|;
      content := Tag(holder)[..written];
      ok := written == |Tag(holder)|;
      if !ok {
        BeginningNamesNoRestart(holder, written);
      }
    }
  }

  lemma {:induction false} BeginningNamesNoRestart(holder: Holder, written: nat)
    requires written < |Tag(holder)|
    ensures !HeldByRestart(Some(Tag(holder)[..written]))
  {
    var part := Tag(holder)[..written];
    assert Trimmed(part) by {
      assert part != "" ==> part[0] == Tag(holder)[0] && part[|part| - 1] == Tag(holder)[written - 1];
      assert forall c <- Tag(holder) :: !IsWhite(c);
      assert part != "" ==> Tag(holder)[0] in Tag(holder) && Tag(holder)[written - 1] in Tag(holder);
    }
    TrimIsTrimmed(part);
    assert holder == Operation ==> part != "" ==> part[0] == 'o';
  }
}
