/**
 Blocking calls: CBaseWorker::sendSync waits until CBaseJob::wakeup sees that the job's
 shared-pointer use count is the initial count plus one. The count is the number of
 references held by the caller, the queues, the dumped vectors and the pending tables.
 */
module SyncWakeup {
  import opened Common

  datatype Outcome = Skipped | SendFailed | NoReplyExpected | Untracked | Answered | WrongObject | TimedOut | PeerVanished

  /**
   One sendSync of a job. `external` are the references outside worker and sessions,
   which must not change while the caller waits; `armed` is mSyncReq != 0; `refused`
   says that send failed; `cut` says that the request was resolved while a dumped
   vector still referred to it.
   */
  datatype Call = Call(external: nat, initial: nat, armed: bool, refused: bool, outcome: Option<Outcome>, posts: nat, cut: bool)

  /** A dumped vector: the jobs still to be handled, and those handled but still referred to. */
  datatype Batch = Batch(ahead: seq<int>, behind: multiset<int>)

  datatype Phase = Idle | InPass | InDrain

  /**
   `first` and `early` are the normal and the urgent vector of the running pass, `late`
   the urgent vector of a drain within it; they are empty when not in use.
   */
  datatype State = State(normal: seq<int>, urgent: seq<int>, phase: Phase, first: Batch, early: Batch, late: Batch,
                         pending: multiset<int>, calls: map<int, Call>)

  /** What running a job does: enter a pending table, or be done with it. */
  datatype Effect = Enter | Finish(outcome: Outcome)

  datatype Step =
    | SendSync(job: int, external: nat, toUrgent: bool, accepted: bool)
    | SendAsync(job: int, toUrgent: bool)
    | StartPass
    | Drain
    | RunJob(effect: Effect)
    | EndDrain
    | EndPass
    | Resolve(job: int, outcome: Outcome)
    | GiveUp(job: int)
    | Return(job: int)

  // -------------------------------------------------------------------- reference counts

  const NO_BATCH := Batch([], multiset{})

  /** References from the queues and from vectors that have the job still ahead of them. */
  function UnrunRefs(s: State, job: int): nat {
    multiset(s.normal)[job] + multiset(s.urgent)[job] + AheadRefs(s, job)
  }

  function AheadRefs(s: State, job: int): nat {
    multiset(s.first.ahead)[job] + multiset(s.early.ahead)[job] + multiset(s.late.ahead)[job]
  }

  function BehindRefs(s: State, job: int): nat {
    s.first.behind[job] + s.early.behind[job] + s.late.behind[job]
  }

  /** References held by the dumped vectors. */
  function PassRefs(s: State, job: int): nat {
    AheadRefs(s, job) + BehindRefs(s, job)
  }

  function Refs(s: State, job: int): nat {
    UnrunRefs(s, job) + BehindRefs(s, job) + s.pending[job]
  }

  predicate Armed(s: State, job: int) {
    job in s.calls && s.calls[job].armed
  }

  function UseCount(s: State, job: int): nat
    requires job in s.calls
  {
    s.calls[job].external + Refs(s, job)
  }

  /** wakeup, where the job is armed: post if the use count is as expected. */
  function Wakeup(s: State, job: int): State {
    if Armed(s, job) && UseCount(s, job) == s.calls[job].initial + 1
    then s.(calls := s.calls[job := s.calls[job].(posts := s.calls[job].posts + 1)])
    else s
  }

  // -------------------------------------------------------------------------------- steps

  /** The vector whose jobs are being handled. */
  function Current(s: State): Batch {
    match s.phase
    case Idle => NO_BATCH
    case InDrain => s.late
    case InPass => if s.early.ahead != [] then s.early else s.first
  }

  function WithCurrent(s: State, b: Batch): State {
    match s.phase
    case Idle => s
    case InDrain => s.(late := b)
    case InPass => if s.early.ahead != [] then s.(early := b) else s.(first := b)
  }

  predicate Enabled(s: State, step: Step) {
    match step
    // a job that is sent to be waited for is in no queue, and its references stay as they are
    case SendSync(job, _, _, _) => Armed(s, job) || Refs(s, job) == 0
    case SendAsync(job, _) => !Armed(s, job)
    case StartPass => s.phase == Idle
    case Drain => s.phase == InPass && s.early.ahead == []
    case RunJob(_) => Current(s).ahead != []
    case EndDrain => s.phase == InDrain && s.late.ahead == []
    case EndPass => s.phase == InPass && s.first.ahead == [] && s.early.ahead == []
    case Resolve(job, _) => s.pending[job] > 0
    case GiveUp(job) => Armed(s, job) && !s.calls[job].refused
    case Return(job) => Armed(s, job) && s.calls[job].posts > 0
  }

  function Push(s: State, job: int, toUrgent: bool): State {
    if toUrgent then s.(urgent := s.urgent + [job]) else s.(normal := s.normal + [job])
  }

  function Record(s: State, job: int, outcome: Outcome, cut: bool): State {
    if job in s.calls then s.(calls := s.calls[job := s.calls[job].(outcome := Some(outcome), cut := cut)]) else s
  }

  /** The head of the current vector moves behind; the vector goes on referring to it. */
  function PassHead(s: State): State
    requires Current(s).ahead != []
  {
    var b := Current(s);
    WithCurrent(s, Batch(b.ahead[1..], b.behind + multiset{b.ahead[0]}))
  }

  function Next(s: State, step: Step): State
    requires Enabled(s, step)
  {
    match step
    case SendSync(job, external, toUrgent, accepted) =>
      if Armed(s, job) then s else
      var s' := s.(calls := s.calls[job := Call(external, external + Refs(s, job), true, !accepted, None, 0, false)]);
      if accepted then Push(s', job, toUrgent) else s'
    case SendAsync(job, toUrgent) => Push(s.(calls := s.calls - {job}), job, toUrgent)
    case StartPass =>
      s.(normal := [], urgent := [], phase := InPass, first := Batch(s.normal, multiset{}), early := Batch(s.urgent, multiset{}))
    case Drain => s.(urgent := [], phase := InDrain, late := Batch(s.urgent, multiset{}))
    case RunJob(effect) => RunHead(s, effect)
    case EndDrain => s.(phase := InPass, late := NO_BATCH)
    case EndPass => s.(phase := Idle, first := NO_BATCH, early := NO_BATCH)
    case Resolve(job, outcome) =>
      Record(Wakeup(s, job), job, outcome, PassRefs(s, job) > 0).(pending := s.pending - multiset{job})
    case GiveUp(job) => s.(calls := s.calls[job := s.calls[job].(armed := false)])
    case Return(job) => s.(calls := s.calls[job := s.calls[job].(armed := false)])
  }

  /** runOneJob; a job whose caller gave up is not run. */
  function RunHead(s: State, effect: Effect): State
    requires Current(s).ahead != []
  {
    var job := Current(s).ahead[0];
    var s' := PassHead(s);
    if job in s.calls && !s.calls[job].armed then s' else
    var ran := match effect
      case Enter => s'.(pending := s'.pending + multiset{job})
      case Finish(outcome) => Record(s', job, outcome, false);
    Wakeup(ran, job)
  }

  // --------------------------------------------------------------------------- invariant

  /** Vectors that are not in use are empty. */
  predicate PhaseInv(s: State) {
    && (s.phase == Idle ==> s.first == NO_BATCH && s.early == NO_BATCH)
    && (s.phase != InDrain ==> s.late == NO_BATCH)
    && (s.phase == InDrain ==> s.early.ahead == [])
  }

  /**
   A waiting caller's job, with so many references, is at exactly one stage: not yet run;
   run and pending; or resolved, when it has been posted once unless it was cut.
   */
  predicate CallOk(c: Call, unrun: nat, behind: nat, pending: nat) {
    && c.posts <= 1 && (c.posts == 1 ==> c.outcome.Some?)
    && (c.armed ==> c.initial == c.external && behind <= 1)
    && (c.armed && c.refused ==> unrun + behind + pending == 0 && c.outcome.None? && c.posts == 0)
    && (c.armed && !c.refused ==>
          if c.outcome.None? then c.posts == 0 && unrun + pending == 1 && (behind == 1 ==> pending == 1)
          else c.posts == (if c.cut then 0 else 1) && unrun + pending == 0)
  }

  predicate CallInv(s: State, job: int)
    requires job in s.calls
  {
    CallOk(s.calls[job], UnrunRefs(s, job), BehindRefs(s, job), s.pending[job])
  }

  predicate Inv(s: State) {
    PhaseInv(s) && forall job :: job in s.calls ==> CallInv(s, job)
  }

  /** Handling a job moves one reference to it from ahead to behind. */
  lemma HeadCounts(s: State, job: int)
    requires PhaseInv(s) && Current(s).ahead != []
    ensures var head, s' := Current(s).ahead[0], PassHead(s);
            var d := if job == head then 1 else 0;
            && UnrunRefs(s', job) == UnrunRefs(s, job) - d && BehindRefs(s', job) == BehindRefs(s, job) + d
            && s'.pending == s.pending && s'.calls == s.calls && PhaseInv(s')
  {
    var b := Current(s);
    assert b.ahead == [b.ahead[0]] + b.ahead[1..];
  }

  /** Starting and ending passes and drains moves references along and drops them, and runs nothing. */
  lemma MoveCounts(s: State, step: Step, job: int)
    requires PhaseInv(s) && Enabled(s, step) && (step.StartPass? || step.Drain? || step.EndDrain? || step.EndPass?)
    ensures var s' := Next(s, step);
            && UnrunRefs(s', job) == UnrunRefs(s, job) && BehindRefs(s', job) <= BehindRefs(s, job)
            && s'.pending == s.pending && s'.calls == s.calls && PhaseInv(s')
  {
  }

  lemma PushCounts(s: State, pushed: int, toUrgent: bool, job: int)
    ensures UnrunRefs(Push(s, pushed, toUrgent), job) == UnrunRefs(s, job) + (if job == pushed then 1 else 0)
  {
  }

  /** The counts depend on queues and vectors only. */
  lemma SameCounts(s: State, s': State, job: int)
    requires s' == s.(pending := s'.pending, calls := s'.calls)
    ensures UnrunRefs(s', job) == UnrunRefs(s, job) && BehindRefs(s', job) == BehindRefs(s, job) && PhaseInv(s') == PhaseInv(s)
  {
  }

  /** The job being run, and the wake-up check at its end. */
  lemma RunHeadCall(s: State, effect: Effect)
    requires PhaseInv(s) && Current(s).ahead != []
    requires var job := Current(s).ahead[0]; job in s.calls && CallInv(s, job)
    ensures var job, s' := Current(s).ahead[0], RunHead(s, effect); job in s'.calls && CallInv(s', job)
  {
    var job, s1, s' := Current(s).ahead[0], PassHead(s), RunHead(s, effect);
    HeadCounts(s, job);
    SameCounts(s1, s1.(pending := s1.pending + multiset{job}), job);
    SameCounts(s1, s', job);
    hide PassHead, UnrunRefs, BehindRefs, PhaseInv;
  }

  /** Running a job touches no other job's call or entries. */
  lemma RunHeadFrame(s: State, effect: Effect, job: int)
    requires Current(s).ahead != []
    ensures var s1, s' := PassHead(s), RunHead(s, effect);
            && s' == s1.(pending := s'.pending, calls := s'.calls) && s'.calls.Keys == s1.calls.Keys && s1.calls == s.calls
            && (job != Current(s).ahead[0] ==> s'.pending[job] == s.pending[job] && (job in s.calls ==> s'.calls[job] == s.calls[job]))
  {
    hide UseCount;
  }

  lemma RunHeadKeeps(s: State, effect: Effect)
    requires Inv(s) && Current(s).ahead != []
    ensures Inv(RunHead(s, effect))
  {
    var s1, s' := PassHead(s), RunHead(s, effect);
    var head := Current(s).ahead[0];
    RunHeadFrame(s, effect, 0);
    HeadCounts(s, 0);
    SameCounts(s1, s', 0);
    if head in s.calls {
      assert CallInv(s, head);
      RunHeadCall(s, effect);
    }
    hide RunHead, PassHead;
    forall job | job in s'.calls && job != head ensures CallInv(s', job) {
      assert CallInv(s, job);
      RunHeadFrame(s, effect, job);
      HeadCounts(s, job);
      SameCounts(s1, s', job);
      hide UnrunRefs, BehindRefs, PhaseInv, CallOk;
    }
  }

  /** The job being resolved, and the wake-up check before it leaves its table. */
  lemma ResolveCall(s: State, job: int, outcome: Outcome)
    requires s.pending[job] > 0 && job in s.calls && CallInv(s, job)
    ensures var s' := Next(s, Resolve(job, outcome)); job in s'.calls && CallInv(s', job)
  {
    SameCounts(s, Next(s, Resolve(job, outcome)), job);
    assert AheadRefs(s, job) <= UnrunRefs(s, job);
    hide UnrunRefs, BehindRefs, AheadRefs;
  }

  /** Resolving a request touches no other job's call or entries. */
  lemma ResolveFrame(s: State, job: int, outcome: Outcome, other: int)
    requires s.pending[job] > 0
    ensures var s' := Next(s, Resolve(job, outcome));
            && s' == s.(pending := s'.pending, calls := s'.calls) && s'.calls.Keys == s.calls.Keys
            && (other != job ==> s'.pending[other] == s.pending[other] && (other in s.calls ==> s'.calls[other] == s.calls[other]))
  {
    hide UseCount, PassRefs;
  }

  lemma ResolveKeeps(s: State, job: int, outcome: Outcome)
    requires Inv(s) && s.pending[job] > 0
    ensures Inv(Next(s, Resolve(job, outcome)))
  {
    var s' := Next(s, Resolve(job, outcome));
    ResolveFrame(s, job, outcome, job);
    SameCounts(s, s', job);
    if job in s.calls {
      assert CallInv(s, job);
      ResolveCall(s, job, outcome);
    }
    assert Enabled(s, Resolve(job, outcome));
    hide Next, Enabled;
    forall j | j in s'.calls && j != job ensures CallInv(s', j) {
      assert CallInv(s, j);
      ResolveFrame(s, job, outcome, j);
      SameCounts(s, s', j);
      hide UnrunRefs, BehindRefs, CallOk, PhaseInv;
    }
  }

  lemma SendSyncCall(s: State, step: Step)
    requires step.SendSync? && Enabled(s, step) && !Armed(s, step.job)
    ensures var s' := Next(s, step); step.job in s'.calls && CallInv(s', step.job)
  {
    var s' := Next(s, step);
    PushCounts(s.(calls := s'.calls), step.job, step.toUrgent, step.job);
    SameCounts(s, s.(calls := s'.calls), step.job);
  }

  lemma SendSyncOther(s: State, step: Step, job: int)
    requires step.SendSync? && Enabled(s, step) && !Armed(s, step.job) && job != step.job && job in s.calls && CallInv(s, job)
    ensures var s' := Next(s, step); job in s'.calls && CallInv(s', job)
  {
    var s' := Next(s, step);
    PushCounts(s.(calls := s'.calls), step.job, step.toUrgent, job);
    SameCounts(s, s.(calls := s'.calls), job);
    hide UnrunRefs, BehindRefs, CallOk;
  }

  lemma SendSyncKeeps(s: State, step: Step)
    requires Inv(s) && step.SendSync? && Enabled(s, step) && !Armed(s, step.job)
    ensures Inv(Next(s, step))
  {
    var s' := Next(s, step);
    assert PhaseInv(s') && s'.calls.Keys == s.calls.Keys + {step.job};
    SendSyncCall(s, step);
    hide Next, PhaseInv;
    forall j | j in s'.calls && j != step.job ensures CallInv(s', j) {
      assert CallInv(s, j);
      SendSyncOther(s, step, j);
      hide CallInv;
    }
  }

  /** Every step of every thread keeps the invariant. */
  lemma NextKeeps(s: State, step: Step)
    requires Inv(s) && Enabled(s, step)
    ensures Inv(Next(s, step))
  {
    var s' := Next(s, step);
    match step
    case SendSync(job, _, _, _) =>
      if !Armed(s, job) {
        SendSyncKeeps(s, step);
      }
    case SendAsync(job, toUrgent) =>
      forall j | j in s'.calls ensures CallInv(s', j) {
        assert CallInv(s, j);
        PushCounts(s.(calls := s'.calls), job, toUrgent, j);
        SameCounts(s, s.(calls := s'.calls), j);
      }
    case RunJob(effect) => RunHeadKeeps(s, effect);
    case Resolve(job, outcome) => ResolveKeeps(s, job, outcome);
    case GiveUp(job) => DisarmKeeps(s, job);
    case Return(job) => DisarmKeeps(s, job);
    case _ =>
      MoveCounts(s, step, 0);
      forall j | j in s'.calls ensures CallInv(s', j) {
        assert CallInv(s, j);
        MoveCounts(s, step, j);
      }
  }

  lemma DisarmKeeps(s: State, job: int)
    requires Inv(s) && job in s.calls
    ensures Inv(s.(calls := s.calls[job := s.calls[job].(armed := false)]))
  {
    var s' := s.(calls := s.calls[job := s.calls[job].(armed := false)]);
    forall j | j in s'.calls ensures CallInv(s', j) {
      assert CallInv(s, j);
      SameCounts(s, s', j);
    }
  }

  // -------------------------------------------------------------------------------- runs

  predicate Initial(s: State) {
    s == State([], [], Idle, NO_BATCH, NO_BATCH, NO_BATCH, multiset{}, map[])
  }

  ghost predicate IsRun(ss: seq<State>, steps: seq<Step>) {
    && |ss| == |steps| + 1 && Initial(ss[0])
    && forall i {:trigger steps[i]} :: 0 <= i < |steps| ==> Enabled(ss[i], steps[i]) && ss[i + 1] == Next(ss[i], steps[i])
  }

  lemma {:induction false} RunsKeepInv(ss: seq<State>, steps: seq<Step>, k: nat)
    requires IsRun(ss, steps) && k <= |steps|
    ensures Inv(ss[k])
  {
    if k > 0 {
      hide Inv, Next;
      RunsKeepInv(ss, steps, k - 1);
      NextKeeps(ss[k - 1], steps[k - 1]);
    }
  }

  /**
   In every state of every run a caller has been posted at most once, never before its
   request was resolved; and while it waits, it has been posted exactly if the request
   was resolved with no dumped vector referring to it.
   */
  lemma PostedOnceIffResolvedAndNotCut(ss: seq<State>, steps: seq<Step>, k: nat, job: int)
    requires IsRun(ss, steps) && k <= |steps| && job in ss[k].calls
    ensures var c := ss[k].calls[job];
            && c.posts <= 1 && (c.posts == 1 ==> c.outcome.Some?)
            && (c.armed && !c.refused ==> (c.posts == 1 <==> c.outcome.Some? && !c.cut))
  {
    RunsKeepInv(ss, steps, k);
    assert CallInv(ss[k], job);
  }

  /** The use count seen by the check is the initial count plus one exactly when no dumped vector refers to the request. */
  lemma CutIffHeld(s: State, job: int, outcome: Outcome)
    requires Inv(s) && Armed(s, job) && !s.calls[job].refused && Enabled(s, Resolve(job, outcome))
    ensures UseCount(s, job) == s.calls[job].initial + 1 <==> PassRefs(s, job) == 0
    ensures Next(s, Resolve(job, outcome)).calls[job].cut <==> PassRefs(s, job) > 0
  {
    assert CallInv(s, job);
    assert AheadRefs(s, job) <= UnrunRefs(s, job);
  }

  /** A job that is sent and accepted goes to the end of the queue it is sent to, and of no other; its caller waits. */
  lemma SendEnters(s: State, step: Step)
    requires Enabled(s, step) && (step.SendSync? || step.SendAsync?) && !Armed(s, step.job)
    ensures var s' := Next(s, step);
            var accepted := step.SendAsync? || step.accepted;
            && s'.urgent == (if accepted && step.toUrgent then s.urgent + [step.job] else s.urgent)
            && s'.normal == (if accepted && !step.toUrgent then s.normal + [step.job] else s.normal)
            && s'.pending == s.pending && s'.phase == s.phase
            && (step.SendAsync? ==> step.job !in s'.calls)
            && (step.SendSync? ==> Armed(s', step.job) && s'.calls[step.job].refused == !accepted && s'.calls[step.job].initial == step.external)
  {
  }

  /** The caller gave up before its job was run. */
  predicate Abandoned(s: State, job: int) {
    job in s.calls && !s.calls[job].armed && s.calls[job].outcome == None && s.pending[job] == 0
  }

  lemma AbandonedStep(s: State, step: Step, job: int)
    requires Abandoned(s, job) && Enabled(s, step) && !((step.SendSync? || step.SendAsync?) && step.job == job)
    ensures Abandoned(Next(s, step), job) && Next(s, step).calls[job].posts == s.calls[job].posts
  {
    hide UseCount, UnrunRefs, BehindRefs, AheadRefs, PassRefs, Refs, RunHead, Current;
    if step.RunJob? {
      AbandonedHead(s, step.effect, job);
    } else if step.Resolve? {
      WakeupOther(s, step.job, job);
      hide Wakeup;
    }
  }

  lemma WakeupOther(s: State, woken: int, job: int)
    requires job in s.calls && !s.calls[job].armed
    ensures job in Wakeup(s, woken).calls && Wakeup(s, woken).calls[job] == s.calls[job] && Wakeup(s, woken).pending == s.pending
  {
    hide UseCount;
  }

  lemma AbandonedHead(s: State, effect: Effect, job: int)
    requires Abandoned(s, job) && Current(s).ahead != []
    ensures Abandoned(RunHead(s, effect), job) && RunHead(s, effect).calls[job].posts == s.calls[job].posts
  {
    hide UseCount, Wakeup;
    var head, s' := Current(s).ahead[0], PassHead(s);
    assert s'.calls == s.calls && s'.pending == s.pending;
    hide PassHead, Current;
    if head != job && !(head in s.calls && !s.calls[head].armed) {
      var ran := match effect
        case Enter => s'.(pending := s'.pending + multiset{head})
        case Finish(outcome) => Record(s', head, outcome, false);
      WakeupOther(ran, head, job);
    }
  }

  /**
   A job whose caller gave up before it was run is not run in any continuation: it enters no
   pending table, has no outcome and wakes nobody, until it is sent again.
   */
  lemma {:induction false} AbandonedNeverRuns(ss: seq<State>, steps: seq<Step>, i: nat, k: nat, job: int)
    requires IsRun(ss, steps) && i <= k <= |steps| && Abandoned(ss[i], job)
    requires forall j {:trigger steps[j]} :: i <= j < k ==> !((steps[j].SendSync? || steps[j].SendAsync?) && steps[j].job == job)
    ensures Abandoned(ss[k], job) && ss[k].calls[job].posts == ss[i].calls[job].posts
    decreases k - i
  {
    if i < k {
      hide Next, Enabled;
      AbandonedNeverRuns(ss, steps, i, k - 1, job);
      var step := steps[k - 1];
      AbandonedStep(ss[k - 1], step, job);
    }
  }

  /** Responses, timeouts and session losses come between passes. */
  ghost predicate ResolvesBetweenPasses(ss: seq<State>, steps: seq<Step>) {
    IsRun(ss, steps) && forall i {:trigger steps[i]} :: 0 <= i < |steps| && steps[i].Resolve? ==> ss[i].phase == Idle
  }

  lemma {:induction false} NeverCut(ss: seq<State>, steps: seq<Step>, k: nat, job: int)
    requires ResolvesBetweenPasses(ss, steps) && k <= |steps| && job in ss[k].calls
    ensures !ss[k].calls[job].cut
  {
    if k > 0 {
      RunsKeepInv(ss, steps, k - 1);
      var s, step := ss[k - 1], steps[k - 1];
      if job in s.calls {
        NeverCut(ss, steps, k - 1, job);
      }
      StepCuts(s, step, job);
    }
  }

  lemma RunHeadCuts(s: State, effect: Effect, job: int)
    requires Current(s).ahead != [] && job in s.calls && !s.calls[job].cut
    ensures job in RunHead(s, effect).calls && !RunHead(s, effect).calls[job].cut
  {
    assert PassHead(s).calls == s.calls;
    hide UseCount, PassHead;
  }

  lemma StepCuts(s: State, step: Step, job: int)
    requires PhaseInv(s) && Enabled(s, step) && job in Next(s, step).calls
    requires job in s.calls ==> !s.calls[job].cut
    requires step.Resolve? ==> s.phase == Idle
    ensures !Next(s, step).calls[job].cut
  {
    match step
    case RunJob(effect) =>
      RunHeadFrame(s, effect, job);
      RunHeadCuts(s, effect, job);
    case Resolve(resolved, _) =>
      assert PassRefs(s, resolved) == 0;
      hide UseCount, PassRefs;
    case _ =>
      hide UnrunRefs, BehindRefs;
  }

  /** In such runs a waiting caller has been posted, once, exactly if its request is resolved. */
  lemma PostedIffResolved(ss: seq<State>, steps: seq<Step>, k: nat, job: int)
    requires ResolvesBetweenPasses(ss, steps) && k <= |steps| && Armed(ss[k], job) && !ss[k].calls[job].refused
    ensures ss[k].calls[job].posts == (if ss[k].calls[job].outcome.Some? then 1 else 0)
  {
    NeverCut(ss, steps, k, job);
    PostedOnceIffResolvedAndNotCut(ss, steps, k, job);
  }

  /** A caller whose request was cut is never posted, however long it waits. */
  lemma {:induction false} CutCallersWaitForever(ss: seq<State>, steps: seq<Step>, i: nat, k: nat, job: int)
    requires IsRun(ss, steps) && i <= k <= |steps|
    requires Armed(ss[i], job) && !ss[i].calls[job].refused && ss[i].calls[job].outcome.Some? && ss[i].calls[job].cut
    requires forall j :: i <= j <= k ==> Armed(ss[j], job)
    ensures Armed(ss[k], job) && ss[k].calls[job] == ss[i].calls[job] && ss[k].calls[job].posts == 0
    decreases k
  {
    hide Inv, Next, Enabled;
    if k == i {
      PostedOnceIffResolvedAndNotCut(ss, steps, k, job);
    } else {
      CutCallersWaitForever(ss, steps, i, k - 1, job);
      RunsKeepInv(ss, steps, k - 1);
      ResolvedStays(ss[k - 1], steps[k - 1], job);
    }
  }

  lemma ResolvedStays(s: State, step: Step, job: int)
    requires Inv(s) && Enabled(s, step) && Armed(s, job) && !s.calls[job].refused && s.calls[job].outcome.Some?
    requires Armed(Next(s, step), job)
    ensures Next(s, step).calls[job] == s.calls[job]
  {
    assert CallInv(s, job);
    match step
    case RunJob(effect) =>
      assert job == Current(s).ahead[0] ==> job in Current(s).ahead;
      RunHeadFrame(s, effect, job);
      hide RunHead, BehindRefs;
    case _ =>
      hide Inv, UseCount, UnrunRefs, BehindRefs;
  }

  const WAITING := Call(1, 1, true, false, None, 0, false)

  /** Job 1 is a blocking request and job 2 will disconnect its session; the pass has sent the request. */
  const SENT := State([], [], InPass, Batch([2], multiset{1}), NO_BATCH, NO_BATCH, multiset{1}, map[1 := WAITING])

  const LOST := SENT.(phase := Idle, first := NO_BATCH, pending := multiset{},
                      calls := map[1 := WAITING.(outcome := Some(PeerVanished), cut := true)])

  lemma SendingStep()
    ensures var s := SENT.(pending := multiset{}, first := Batch([1, 2], multiset{}));
            Enabled(s, RunJob(Enter)) && Next(s, RunJob(Enter)) == SENT
  {
    assert [1, 2][1..] == [2];
  }

  const QUEUED := SENT.(normal := [1, 2], phase := Idle, first := NO_BATCH, pending := multiset{})

  lemma QueueingSteps() returns (s0: State, s1: State)
    ensures Initial(s0) && Enabled(s0, SendSync(1, 1, false, true)) && s1 == Next(s0, SendSync(1, 1, false, true))
    ensures Enabled(s1, SendAsync(2, false)) && QUEUED == Next(s1, SendAsync(2, false))
  {
    s0 := State([], [], Idle, NO_BATCH, NO_BATCH, NO_BATCH, multiset{}, map[]);
    s1 := s0.(normal := [1], calls := map[1 := WAITING]);
    assert s1 == Next(s0, SendSync(1, 1, false, true));
    assert [1] + [2] == [1, 2];
  }

  lemma DumpingStep() returns (s: State)
    ensures s == SENT.(pending := multiset{}, first := Batch([1, 2], multiset{}))
    ensures Enabled(QUEUED, StartPass) && s == Next(QUEUED, StartPass)
  {
    s := SENT.(pending := multiset{}, first := Batch([1, 2], multiset{}));
  }

  lemma SendingRun() returns (ss: seq<State>, steps: seq<Step>)
    ensures IsRun(ss, steps) && |steps| == 4 && ss[4] == SENT
  {
    var s0, s1 := QueueingSteps();
    SendingStep();
    var s3 := DumpingStep();
    hide Next, Enabled, Initial;
    steps := [SendSync(1, 1, false, true), SendAsync(2, false), StartPass, RunJob(Enter)];
    ss := [s0, s1, QUEUED, s3, SENT];
    forall i | 0 <= i < 4 ensures Enabled(ss[i], steps[i]) && ss[i + 1] == Next(ss[i], steps[i]) {
      if i < 2 {
        assert i == 0 || i == 1;
      } else {
        assert i == 2 || i == 3;
      }
    }
  }

  lemma DisconnectingRun() returns (s1: State, s2: State)
    ensures Enabled(SENT, Resolve(1, PeerVanished)) && s1 == Next(SENT, Resolve(1, PeerVanished))
    ensures Enabled(s1, RunJob(Finish(NoReplyExpected))) && s2 == Next(s1, RunJob(Finish(NoReplyExpected)))
    ensures Enabled(s2, EndPass) && LOST == Next(s2, EndPass)
  {
    s1 := SENT.(pending := multiset{}, calls := LOST.calls);
    s2 := s1.(first := Batch([], multiset{1, 2}));
    assert s1 == Next(SENT, Resolve(1, PeerVanished));
    assert [2][1..] == [];
    assert s2 == Next(s1, RunJob(Finish(NoReplyExpected)));
  }

  /** A session that a later job of the same pass disconnects resolves the request without waking its caller. */
  lemma LostWakeup() returns (ss: seq<State>, steps: seq<Step>)
    ensures IsRun(ss, steps) && |ss| == 8
    ensures Armed(ss[7], 1) && ss[7].calls[1].outcome == Some(PeerVanished) && ss[7].calls[1].posts == 0 && Refs(ss[7], 1) == 0
  {
    ss, steps := SendingRun();
    var s1, s2 := DisconnectingRun();
    var more := [Resolve(1, PeerVanished), RunJob(Finish(NoReplyExpected)), EndPass];
    hide Next, Enabled;
    var ss', steps' := ss + [s1, s2, LOST], steps + more;
    forall i | 0 <= i < |steps'| ensures Enabled(ss'[i], steps'[i]) && ss'[i + 1] == Next(ss'[i], steps'[i]) {
      if i < 4 {
        assert steps'[i] == steps[i];
      } else {
        assert steps'[i] == more[i - 4];
      }
    }
    ss, steps := ss', steps';
  }
}
