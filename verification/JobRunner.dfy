// File-transfer job threads (src/abi_ft.cpp:212-225, 262-320, 348-556,
// 610-624): any number of jobs on one tunnel, each a thread that takes lan_mu
// for its transfer, delivers one result and drops its references. Anything in
// a thread may throw; Studio may hold, retain and release handles, shut the
// tunnel down, and do so from inside a result callback.
module JobRunner {
  import opened Text

  // What the thread of a job does next.
  datatype Pc =
    | Created
    | Entering | Working          // before and under lan_mu
    | Reporting | Marked          // in deliver_result, before and after `finished` is set
    | Calling                     // in the result callback
    | Shutting | Shut             // in ft_tunnel_shutdown called from it, before and under lan_mu
    | Caught | Cleaning | Checking // in fail_job_after_exception
    | ReleasingJob | ReleasingTunnel | Ended

  // locks: the job's kind takes lan_mu at all (an unknown command and the
  // blocked preview report at once). calls counts result callbacks.
  datatype Job = Job(pc: Pc, locks: bool, hasCallback: bool, finished: bool, inCatch: bool, calls: nat,
                     owners: nat, refs: int, freed: bool)

  datatype Holder = Free | Thread(job: nat) | Outside

  datatype State = State(jobs: seq<Job>, lock: Holder, tunnelOwners: nat, tunnelRefs: int, tunnelFreed: bool,
                         terminated: bool)

  function NewJob(locks: bool, hasCallback: bool): Job {
    Job(Created, locks, hasCallback, false, false, 0, 1, 1, false)
  }

  datatype Act = Go | Throw | CallShutdown

  datatype Label =
    | Create(locks: bool, hasCallback: bool)
    | Start(job: nat)
    | Run(job: nat, act: Act)
    | RetainJob(job: nat) | ReleaseJob(job: nat)
    | RetainTunnel | ReleaseTunnel
    | ShutdownLocks | ShutdownUnlocks

  // A thrown exception: into the catch block, or out of it, which ends the
  // process.
  function Unwound(s: State, i: nat): State
    requires i < |s.jobs|
  {
    var j := s.jobs[i];
    var t := if s.lock == Thread(i) then s.(lock := Free) else s;
    if j.inCatch then t.(terminated := true)
    else t.(jobs := t.jobs[i := j.(pc := Caught, inCatch := true)])
  }

  predicate UnderLock(pc: Pc) { pc == Working || pc == Shut || pc == Cleaning }

  // The thread is about to take lan_mu.
  predicate Locks(j: Job) { (j.pc == Entering && j.locks) || j.pc == Shutting || j.pc == Caught }

  predicate Active(pc: Pc) { pc != Created && pc != Ended }

  // The next step of the thread.
  function Next(j: Job): Job
    requires Active(j.pc)
  {
    match j.pc
    case Entering => j.(pc := if j.locks then Working else Reporting)
    case Working => j.(pc := Reporting)
    case Reporting => j.(finished := true, pc := Marked)
    case Marked => if j.hasCallback then j.(calls := j.calls + 1, pc := Calling) else j.(pc := ReleasingJob)
    case Calling => j.(pc := ReleasingJob)
    case Shutting => j.(pc := Shut)
    case Shut => j.(pc := Calling)
    case Caught => j.(pc := Cleaning)
    case Cleaning => j.(pc := Checking)
    case Checking => j.(pc := if j.finished then ReleasingJob else Reporting)
    case ReleasingJob => j.(pc := ReleasingTunnel, refs := j.refs - 1, freed := j.freed || j.refs == 1)
    case ReleasingTunnel => j.(pc := Ended)
  }

  // The step in the state; None when the thread has to wait for lan_mu.
  function Go1(s: State, i: nat): Option<State>
    requires i < |s.jobs|
  {
    var j := s.jobs[i];
    if !Active(j.pc) || (Locks(j) && s.lock != Free) then None
    else
      var t := s.(jobs := s.jobs[i := Next(j)],
                  lock := if Locks(j) then Thread(i) else if UnderLock(j.pc) then Free else s.lock);
      Some(if j.pc == ReleasingTunnel then
             t.(tunnelRefs := s.tunnelRefs - 1, tunnelFreed := s.tunnelFreed || s.tunnelRefs == 1)
           else t)
  }

  predicate MayThrow(pc: Pc) {
    pc == Entering || pc == Working || pc == Reporting || pc == Marked || pc == Calling || pc == Shut ||
    pc == Caught || pc == Cleaning || pc == Checking
  }

  function Step(s: State, l: Label): Option<State> {
    if s.terminated then None
    else
      match l
      case Create(locks, hasCallback) => Some(s.(jobs := s.jobs + [NewJob(locks, hasCallback)]))
      case Start(i) =>
        // spawn_job: the caller holds both handles; a job is started once.
        if i < |s.jobs| && s.jobs[i].pc == Created && s.jobs[i].owners > 0 && s.tunnelOwners > 0 then
          Some(s.(jobs := s.jobs[i := s.jobs[i].(pc := Entering, refs := s.jobs[i].refs + 1)], tunnelRefs := s.tunnelRefs + 1))
        else None
      case Run(i, act) =>
        if i >= |s.jobs| then None
        else
          (match act
           case Go => Go1(s, i)
           case Throw => if MayThrow(s.jobs[i].pc) then Some(Unwound(s, i)) else None
           case CallShutdown =>
             if s.jobs[i].pc == Calling then Some(s.(jobs := s.jobs[i := s.jobs[i].(pc := Shutting)])) else None)
      case RetainJob(i) =>
        if i < |s.jobs| && s.jobs[i].owners > 0 then
          Some(s.(jobs := s.jobs[i := s.jobs[i].(owners := s.jobs[i].owners + 1, refs := s.jobs[i].refs + 1)]))
        else None
      case ReleaseJob(i) =>
        if i < |s.jobs| && s.jobs[i].owners > 0 then
          Some(s.(jobs := s.jobs[i := s.jobs[i].(owners := s.jobs[i].owners - 1, refs := s.jobs[i].refs - 1,
                                                 freed := s.jobs[i].freed || s.jobs[i].refs == 1)]))
        else None
      case RetainTunnel =>
        if s.tunnelOwners > 0 then Some(s.(tunnelOwners := s.tunnelOwners + 1, tunnelRefs := s.tunnelRefs + 1)) else None
      case ReleaseTunnel =>
        if s.tunnelOwners > 0 && (s.lock == Outside ==> s.tunnelOwners > 1) then
          Some(s.(tunnelOwners := s.tunnelOwners - 1, tunnelRefs := s.tunnelRefs - 1,
                  tunnelFreed := s.tunnelFreed || s.tunnelRefs == 1))
        else None
      case ShutdownLocks => if s.tunnelOwners > 0 && s.lock == Free then Some(s.(lock := Outside)) else None
      case ShutdownUnlocks => if s.lock == Outside then Some(s.(lock := Free)) else None
  }

  // A tunnel to which Studio holds some handles.
  function Initial(handles: nat): State
    requires handles > 0
  {
    State([], Free, handles, handles, false, false)
  }

  function After(s: State, labels: seq<Label>): Option<State>
    decreases |labels|
  {
    if labels == [] then Some(s)
    else
      match Step(s, labels[0])
      case None => None
      case Some(t) => After(t, labels[1..])
  }

  // ---- What every step keeps ----

  // The thread still has its reference to the job; to the tunnel.
  predicate HasJob(pc: Pc) { pc != Created && pc != ReleasingTunnel && pc != Ended }
  predicate HasTunnel(pc: Pc) { Active(pc) }

  function One(b: bool): nat { if b then 1 else 0 }

  predicate JobKept(j: Job) {
    && j.calls <= One(j.hasCallback)
    && (j.calls == 1 ==> j.finished)
    && (j.pc == Created || j.pc == Entering || j.pc == Working ==> !j.finished && !j.inCatch)
    && (j.pc == Reporting ==> !j.finished)
    && (j.pc == Marked ==> j.finished && j.calls == 0)
    && (j.pc == Calling || j.pc == Shutting || j.pc == Shut ==> j.calls == 1)
    && (j.pc == Caught || j.pc == Cleaning || j.pc == Checking ==> j.inCatch)
    && (j.pc == ReleasingJob || j.pc == ReleasingTunnel || j.pc == Ended ==>
          j.finished && (!j.inCatch ==> j.calls == One(j.hasCallback)))
    && j.refs == j.owners + One(HasJob(j.pc))
    && j.freed == (j.refs == 0)
  }

  // How many threads hold the tunnel.
  function Holding(jobs: seq<Job>): nat {
    if jobs == [] then 0 else One(HasTunnel(jobs[0].pc)) + Holding(jobs[1..])
  }

  predicate Kept(s: State) {
    && (forall i :: 0 <= i < |s.jobs| ==> JobKept(s.jobs[i]))
    && (forall i :: 0 <= i < |s.jobs| ==> (UnderLock(s.jobs[i].pc) <==> s.lock == Thread(i)))
    && (s.lock.Thread? ==> s.lock.job < |s.jobs|)
    && (s.lock == Outside ==> s.tunnelOwners > 0)
    && s.tunnelRefs == s.tunnelOwners + Holding(s.jobs)
    && s.tunnelFreed == (s.tunnelRefs == 0)
  }

  lemma {:induction false} HoldingUpdate(jobs: seq<Job>, i: nat, j: Job)
    requires i < |jobs|
    ensures Holding(jobs[i := j]) + One(HasTunnel(jobs[i].pc)) == Holding(jobs) + One(HasTunnel(j.pc))
  {
    if i == 0 {
      assert jobs[0 := j][1..] == jobs[1..];
    } else {
      assert jobs[i := j][1..] == jobs[1..][i - 1 := j];
      HoldingUpdate(jobs[1..], i - 1, j);
    }
  }

  lemma {:induction false} HoldingAppend(jobs: seq<Job>, j: Job)
    ensures Holding(jobs + [j]) == Holding(jobs) + One(HasTunnel(j.pc))
  {
    if jobs == [] {
      assert [] + [j] == [j] && [j][1..] == [];
    } else {
      assert (jobs + [j])[1..] == jobs[1..] + [j];
      HoldingAppend(jobs[1..], j);
    }
  }

  lemma {:induction false} HolderHolds(jobs: seq<Job>, i: nat)
    requires i < |jobs| && HasTunnel(jobs[i].pc)
    ensures Holding(jobs) > 0
  {
    if i > 0 {
      HolderHolds(jobs[1..], i - 1);
    }
  }

  // A step that replaces job i.
  lemma Replaced(s: State, i: nat, t: State)
    requires Kept(s) && i < |s.jobs| == |t.jobs| && t.jobs == s.jobs[i := t.jobs[i]] && JobKept(t.jobs[i])
    requires UnderLock(t.jobs[i].pc) <==> t.lock == Thread(i)
    requires t.lock == s.lock || ((s.lock == Free || s.lock == Thread(i)) && (t.lock == Free || t.lock == Thread(i)))
    requires t.tunnelOwners == s.tunnelOwners && t.tunnelFreed == (t.tunnelRefs == 0)
    requires t.tunnelRefs == s.tunnelRefs + One(HasTunnel(t.jobs[i].pc)) - One(HasTunnel(s.jobs[i].pc))
    ensures Kept(t)
  {
    HoldingUpdate(s.jobs, i, t.jobs[i]);
  }

  lemma NextKept(j: Job)
    requires JobKept(j) && Active(j.pc)
    ensures JobKept(Next(j)) && (UnderLock(Next(j).pc) <==> Locks(j))
    ensures HasTunnel(Next(j).pc) <==> j.pc != ReleasingTunnel
  {
  }

  lemma GoKeeps(s: State, i: nat)
    requires Kept(s) && !s.terminated && i < |s.jobs| && Go1(s, i).Some?
    ensures Kept(Go1(s, i).value)
  {
    var j := s.jobs[i];
    assert JobKept(j);
    NextKept(j);
    HolderHolds(s.jobs, i);
    Replaced(s, i, Go1(s, i).value);
  }

  lemma ThrowKeeps(s: State, i: nat)
    requires Kept(s) && !s.terminated && i < |s.jobs| && MayThrow(s.jobs[i].pc)
    ensures Unwound(s, i).terminated || Kept(Unwound(s, i))
  {
    assert JobKept(s.jobs[i]);
    if !Unwound(s, i).terminated {
      HolderHolds(s.jobs, i);
      Replaced(s, i, Unwound(s, i));
    }
  }

  lemma CreateKeeps(s: State, j: Job)
    requires Kept(s) && JobKept(j) && j.pc == Created
    ensures Kept(s.(jobs := s.jobs + [j]))
  {
    HoldingAppend(s.jobs, j);
  }

  // Owners and threads count the same references.
  lemma OwnersKeep(s: State, t: State)
    requires Kept(s) && t == s.(tunnelOwners := t.tunnelOwners, tunnelRefs := t.tunnelRefs, tunnelFreed := t.tunnelFreed, lock := t.lock)
    requires t.tunnelRefs - s.tunnelRefs == t.tunnelOwners - s.tunnelOwners && t.tunnelFreed == (t.tunnelRefs == 0)
    requires t.lock == s.lock || (!s.lock.Thread? && !t.lock.Thread?)
    requires t.lock == Outside ==> t.tunnelOwners > 0
    ensures Kept(t)
  {
  }

  // The state of a process that ended still had no second callback.
  predicate NoSecondCall(s: State) { forall i :: 0 <= i < |s.jobs| ==> s.jobs[i].calls <= 1 }

  lemma StepKeeps(s: State, l: Label)
    requires Kept(s) && Step(s, l).Some?
    ensures var t := Step(s, l).value; t.terminated || Kept(t)
  {
    var t := Step(s, l).value;
    match l
    case Create(locks, hasCallback) => CreateKeeps(s, NewJob(locks, hasCallback));
    case Start(i) =>
      assert JobKept(s.jobs[i]);
      Replaced(s, i, t);
    case Run(i, act) => RunStepKeeps(s, i, act);
    case RetainJob(i) =>
      assert JobKept(s.jobs[i]);
      Replaced(s, i, t);
    case ReleaseJob(i) =>
      assert JobKept(s.jobs[i]);
      Replaced(s, i, t);
    case _ => OwnersKeep(s, t);
  }

  lemma RunStepKeeps(s: State, i: nat, act: Act)
    requires Kept(s) && Step(s, Run(i, act)).Some?
    ensures var t := Step(s, Run(i, act)).value; t.terminated || Kept(t)
  {
    assert JobKept(s.jobs[i]);
    match act
    case Go => GoKeeps(s, i);
    case Throw => ThrowKeeps(s, i);
    case CallShutdown => Replaced(s, i, Step(s, Run(i, act)).value);
  }

  lemma KeptMeansNoSecondCall(s: State)
    requires Kept(s)
    ensures NoSecondCall(s)
  {
    forall i | 0 <= i < |s.jobs| ensures s.jobs[i].calls <= 1 {
      assert JobKept(s.jobs[i]);
    }
  }

  lemma StepCallsOnce(s: State, l: Label)
    requires Kept(s) && Step(s, l).Some?
    ensures NoSecondCall(Step(s, l).value)
  {
    StepKeeps(s, l);
    KeptMeansNoSecondCall(s);
    var t := Step(s, l).value;
    if !t.terminated { KeptMeansNoSecondCall(t); }
  }

  lemma {:induction false} RunKeeps(s: State, labels: seq<Label>)
    requires Kept(s) && !s.terminated && After(s, labels).Some?
    ensures var t := After(s, labels).value; NoSecondCall(t) && (!t.terminated ==> Kept(t))
    decreases |labels|
  {
    if labels == [] {
      KeptMeansNoSecondCall(s);
    } else {
      StepKeeps(s, labels[0]);
      StepCallsOnce(s, labels[0]);
      var t := Step(s, labels[0]).value;
      if t.terminated {
        assert labels[1..] == [] || After(t, labels[1..]) == None;
      } else {
        RunKeeps(t, labels[1..]);
      }
    }
  }

  // Over every run and whatever throws: the result callback runs at most once;
  // a thread that has ended leaves its job finished, and without an exception
  // its callback has run if there is one.
  lemma ResultAtMostOnce(handles: nat, labels: seq<Label>, s: State, i: nat)
    requires handles > 0 && After(Initial(handles), labels) == Some(s) && i < |s.jobs|
    ensures var j := s.jobs[i];
      j.calls <= 1 &&
      (!s.terminated && j.pc == Ended ==> j.finished && (!j.inCatch ==> j.calls == One(j.hasCallback)))
  {
    RunKeeps(Initial(handles), labels);
    if !s.terminated { assert JobKept(s.jobs[i]); }
  }

  // The callback never runs under its own thread's lan_mu.
  lemma CallbackHoldsNoLock(handles: nat, labels: seq<Label>, s: State, i: nat)
    requires handles > 0 && After(Initial(handles), labels) == Some(s) && !s.terminated && i < |s.jobs|
    requires s.jobs[i].pc == Calling || s.jobs[i].pc == Shutting
    ensures s.lock != Thread(i)
  {
    RunKeeps(Initial(handles), labels);
  }

  // So nothing deadlocks: as long as a thread has not ended, some thread or
  // the shutdown under way can go on.
  lemma NeverStuck(handles: nat, labels: seq<Label>, s: State, i: nat)
    requires handles > 0 && After(Initial(handles), labels) == Some(s) && !s.terminated && i < |s.jobs|
    requires Active(s.jobs[i].pc)
    ensures Go1(s, i).Some? || (s.lock.Thread? && s.lock.job < |s.jobs| && Go1(s, s.lock.job).Some?) || Step(s, ShutdownUnlocks).Some?
  {
    RunKeeps(Initial(handles), labels);
    if s.lock.Thread? {
      assert UnderLock(s.jobs[s.lock.job].pc);
    }
  }

  // Job and tunnel outlive the thread: while it runs neither is freed, and
  // once nobody refers to them both are.
  lemma OutliveTheThread(handles: nat, labels: seq<Label>, s: State, i: nat)
    requires handles > 0 && After(Initial(handles), labels) == Some(s) && !s.terminated && i < |s.jobs|
    ensures var j := s.jobs[i];
      (HasJob(j.pc) ==> !j.freed) && (HasTunnel(j.pc) ==> !s.tunnelFreed) &&
      (j.freed <==> j.owners == 0 && !HasJob(j.pc)) &&
      (s.tunnelFreed <==> s.tunnelOwners == 0 && Holding(s.jobs) == 0)
  {
    RunKeeps(Initial(handles), labels);
    assert JobKept(s.jobs[i]);
    if HasTunnel(s.jobs[i].pc) { HolderHolds(s.jobs, i); }
  }

  // ---- The ability job ----

  datatype Ability = Ability(json: string) | AbilityFailed

  // The answer to an ability job, and the cache afterwards: the cached text,
  // or the printer's.
  function AnswerAbility(cache: Option<string>, printer: Ability): (Ability, Option<string>) {
    match cache
    case Some(json) => (Ability(json), cache)
    case None =>
      match printer
      case AbilityFailed => (AbilityFailed, None)
      case Ability(json) => (if json == [] then AbilityFailed else Ability(json), Some(json))
  }

  // The answers to a series of ability jobs on one tunnel; printer[i] is what
  // the printer would say to the i-th.
  function Answers(cache: Option<string>, printer: seq<Ability>): seq<Ability>
    decreases |printer|
  {
    if printer == [] then []
    else
      var (answer, after) := AnswerAbility(cache, printer[0]);
      [answer] + Answers(after, printer[1..])
  }

  // Jobs fail until the printer answers, at k; from then on every job gets that
  // first text, whatever the printer would say. Job k itself gets it exactly
  // when it is not empty: an empty text is cached too, but reported as failure.
  lemma {:induction false} FirstAnswerStays(printer: seq<Ability>, k: nat, i: nat)
    requires k < |printer| && i < |printer| && printer[k].Ability?
    requires forall n :: 0 <= n < k ==> printer[n] == AbilityFailed
    ensures |Answers(None, printer)| == |printer|
    ensures Answers(None, printer)[i] ==
      if i < k || (i == k && printer[k].json == []) then AbilityFailed else printer[k]
    decreases k
  {
    if k == 0 {
      CachedAnswer(printer[0].json, printer[1..]);
    } else {
      assert printer[0] == AbilityFailed;
      FirstAnswerStays(printer[1..], k - 1, if i == 0 then 0 else i - 1);
    }
  }

  lemma {:induction false} CachedAnswer(json: string, printer: seq<Ability>)
    ensures |Answers(Some(json), printer)| == |printer|
    ensures forall i :: 0 <= i < |printer| ==> Answers(Some(json), printer)[i] == Ability(json)
    decreases |printer|
  {
    if printer != [] {
      CachedAnswer(json, printer[1..]);
    }
  }
}
