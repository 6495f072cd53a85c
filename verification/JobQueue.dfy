/**
 The job queues of CBaseWorker as a machine of atomic steps: queue operations of any
 thread interleave freely with one worker pass (processJobQueue).
 */
module JobQueue {
  import opened Common

  datatype Kind = Plain(forceRun: bool) | Unlock | Exit(code: int)

  datatype Job = Job(id: nat, kind: Kind) {
    predicate Forced() {
      kind != Plain(false)
    }
  }

  /** A job the worker is done with, and whether it was run or skipped. */
  datatype Handled = Handled(job: Job, ran: bool)

  /**
   One queue and its share of the current pass. `batch` holds jobs dumped from the
   queue and not yet handled; `inFlight` counts discards between raising the counter
   and queueing the unlock job. `handled` and `accepted` are the history.
   */
  datatype Lane = Lane(maxSize: nat, discards: nat, queue: seq<Job>, batch: seq<Job>,
                       inFlight: nat, handled: seq<Handled>, accepted: seq<Job>)

  /** Where the worker is in processJobQueue. */
  datatype Phase =
    | Idle
    | FirstUrgent   // handling the urgent jobs dumped at the start
    | BeforeDrain   // about to drain the urgent queue before the next normal job
    | Draining      // handling what was drained
    | RunNormal     // about to handle the next normal job
    | LastDrain     // about to drain once more after the last normal job
    | LastUrgent

  /**
   `exited` records that an exit code was ever set; `drained` is how many urgent jobs
   had been accepted when the urgent queue was last drained.
   */
  datatype Worker = Worker(normal: Lane, urgent: Lane, exitCode: int, exited: bool, phase: Phase, drained: nat) {
    function SetExit(code: int): Worker {
      this.(exitCode := code, exited := exited || code != 0)
    }
  }

  datatype Step =
    | Send(job: Job, toUrgent: bool)
    | DiscardBegin(inUrgent: bool)
    | DiscardEnd(inUrgent: bool)
    | StartPass
    | Advance
    | WakeupFault  // the event loop finds its wakeup descriptor broken and has the worker exit

  // ------------------------------------------------------------- queue operations

  predicate HasRoom(l: Lane) {
    l.maxSize == 0 || |l.queue| < l.maxSize
  }

  function Enqueue(l: Lane, job: Job): Lane {
    if HasRoom(l) then l.(queue := l.queue + [job], accepted := l.accepted + [job]) else l
  }

  /** dumpJobs: the whole queue becomes the batch. */
  function Dump(l: Lane): Lane {
    l.(batch := l.batch + l.queue, queue := [])
  }

  function Pickup(l: Lane): Lane {
    if l.discards > 0 then l.(discards := l.discards - 1) else l
  }

  /** runOneJob for the head of the batch; an unlock job that runs lowers the counter. */
  function RunHead(l: Lane, mayRun: bool): Lane
    requires l.batch != []
  {
    var job := l.batch[0];
    var ran := (l.discards == 0 || job.Forced()) && mayRun;
    var l' := l.(batch := l.batch[1..], handled := l.handled + [Handled(job, ran)]);
    if ran && job.kind == Unlock then Pickup(l') else l'
  }

  /** The exit code once the head of the batch has been handled. */
  function ExitAfter(l: Lane, mayRun: bool, exitCode: int): int
    requires l.batch != []
  {
    if l.batch[0].kind.Exit? && mayRun then l.batch[0].kind.code else exitCode
  }

  // -------------------------------------------------------------------- the steps

  const UNLOCK := Job(0, Unlock)

  predicate Enabled(w: Worker, step: Step) {
    match step
    case Send(job, _) => job.kind != Unlock  // only a discard queues unlock jobs
    case DiscardEnd(inUrgent) => (if inUrgent then w.urgent else w.normal).inFlight > 0
    case StartPass => w.phase == Idle
    case Advance => w.phase != Idle
    case WakeupFault => w.phase == Idle
    case _ => true
  }

  function EndDiscard(l: Lane, exiting: bool): Lane
    requires l.inFlight > 0
  {
    var l' := l.(inFlight := l.inFlight - 1);
    if !exiting && HasRoom(l') then Enqueue(l', UNLOCK) else Pickup(l')
  }

  function Next(w: Worker, step: Step): Worker
    requires Enabled(w, step)
  {
    match step
    case Send(job, toUrgent) =>
      if w.exitCode != 0 then w
      else if toUrgent then w.(urgent := Enqueue(w.urgent, job))
      else w.(normal := Enqueue(w.normal, job))
    case DiscardBegin(inUrgent) =>
      if inUrgent then w.(urgent := w.urgent.(discards := w.urgent.discards + 1, inFlight := w.urgent.inFlight + 1))
      else w.(normal := w.normal.(discards := w.normal.discards + 1, inFlight := w.normal.inFlight + 1))
    case DiscardEnd(inUrgent) =>
      if inUrgent then w.(urgent := EndDiscard(w.urgent, w.exitCode != 0))
      else w.(normal := EndDiscard(w.normal, w.exitCode != 0))
    case StartPass =>
      w.(normal := Dump(w.normal), urgent := Dump(w.urgent), phase := FirstUrgent, drained := |w.urgent.accepted|)
    case Advance => AdvancePass(w)
    case WakeupFault => w.SetExit(1)
  }

  /** The next atomic step of processJobQueue. */
  function AdvancePass(w: Worker): Worker
    requires w.phase != Idle
  {
    match w.phase
    case FirstUrgent => if w.urgent.batch != [] then RunUrgentHead(w) else w.(phase := BeforeDrain)
    case BeforeDrain =>
      if w.normal.batch == [] then w.(phase := LastDrain)
      else w.(urgent := Dump(w.urgent), phase := Draining, drained := |w.urgent.accepted|)
    case Draining => if w.urgent.batch != [] then RunUrgentHead(w) else w.(phase := RunNormal)
    case RunNormal =>
      if w.normal.batch == [] then w.(phase := LastDrain)
      else
        w.(normal := RunHead(w.normal, w.exitCode == 0), phase := BeforeDrain)
         .SetExit(ExitAfter(w.normal, w.exitCode == 0, w.exitCode))
    case LastDrain => w.(urgent := Dump(w.urgent), phase := LastUrgent, drained := |w.urgent.accepted|)
    case LastUrgent => if w.urgent.batch != [] then RunUrgentHead(w) else w.(phase := Idle)
  }

  /** Urgent jobs are handled even after an exit request. */
  function RunUrgentHead(w: Worker): Worker
    requires w.urgent.batch != []
  {
    w.(urgent := RunHead(w.urgent, true)).SetExit(ExitAfter(w.urgent, true, w.exitCode))
  }

  // ------------------------------------------------------------------- invariants

  function Unlocks(jobs: seq<Job>): nat {
    if jobs == [] then 0 else (if jobs[0].kind == Unlock then 1 else 0) + Unlocks(jobs[1..])
  }

  function Jobs(handled: seq<Handled>): seq<Job> {
    seq(|handled|, i requires 0 <= i < |handled| => handled[i].job)
  }

  function Unhandled(l: Lane): seq<Job> {
    l.batch + l.queue
  }

  /** Handled, dumped and queued jobs are the accepted jobs, in order: none lost, doubled or reordered. */
  ghost predicate Conserved(l: Lane) {
    Jobs(l.handled) + Unhandled(l) == l.accepted
  }

  /** The discard counter counts the unlock jobs not yet handled and the discards under way. */
  ghost predicate Counted(l: Lane) {
    l.discards == Unlocks(Unhandled(l)) + l.inFlight
  }

  /** After an exit unlock jobs may be skipped, so the counter may stay too high, never too low. */
  ghost predicate CountedAtLeast(l: Lane) {
    l.discards >= Unlocks(Unhandled(l)) + l.inFlight
  }

  /** Both lanes are conserved and counted, and the phases mean what they say. */
  ghost predicate Inv(w: Worker) {
    && Conserved(w.normal) && Conserved(w.urgent)
    && (!w.exited ==> w.exitCode == 0 && Counted(w.normal)) && CountedAtLeast(w.normal) && Counted(w.urgent)
    && (w.phase == Idle ==> w.normal.batch == [])
    && (w.phase in {Idle, BeforeDrain, RunNormal, LastDrain} ==> w.urgent.batch == [])
    && (w.phase in {LastDrain, LastUrgent} ==> w.normal.batch == [])
    && w.drained <= |w.urgent.accepted|
    && (w.phase in {FirstUrgent, Draining, LastUrgent} ==> |w.urgent.handled| + |w.urgent.batch| == w.drained)
    && (w.phase == RunNormal ==> |w.urgent.handled| == w.drained)
  }

  lemma {:induction false} UnlocksConcat(a: seq<Job>, b: seq<Job>)
    ensures Unlocks(a + b) == Unlocks(a) + Unlocks(b)
  {
    if a == [] {
      assert a + b == b;
    } else {
      UnlocksConcat(a[1..], b);
      assert (a + b)[1..] == a[1..] + b;
    }
  }

  lemma EnqueueKeeps(l: Lane, job: Job)
    requires Conserved(l)
    ensures var l' := Enqueue(l, job);
            && Conserved(l') && l'.batch == l.batch && l'.handled == l.handled
            && Unlocks(Unhandled(l')) == Unlocks(Unhandled(l)) + (if HasRoom(l) && job.kind == Unlock then 1 else 0)
  {
    if HasRoom(l) {
      assert Unhandled(Enqueue(l, job)) == Unhandled(l) + [job];
      UnlocksConcat(Unhandled(l), [job]);
      assert Jobs(l.handled) + (Unhandled(l) + [job]) == (Jobs(l.handled) + Unhandled(l)) + [job];
    }
  }

  lemma DumpKeeps(l: Lane)
    requires Conserved(l)
    ensures Conserved(Dump(l)) && Unhandled(Dump(l)) == Unhandled(l)
  {
    assert Unhandled(Dump(l)) == Unhandled(l);
  }

  lemma RunHeadKeeps(l: Lane, mayRun: bool)
    requires Conserved(l) && l.batch != []
    ensures var l' := RunHead(l, mayRun);
            && Conserved(l') && l'.queue == l.queue && l'.accepted == l.accepted
            && |l'.handled| == |l.handled| + 1 && |l'.batch| == |l.batch| - 1
    ensures Counted(l) && mayRun ==> Counted(RunHead(l, mayRun))
    ensures CountedAtLeast(l) ==> CountedAtLeast(RunHead(l, mayRun))
  {
    var l' := RunHead(l, mayRun);
    assert Unhandled(l)[1..] == Unhandled(l');
    assert Unhandled(l) == [l.batch[0]] + Unhandled(l');
    assert Jobs(l'.handled) == Jobs(l.handled) + [l.batch[0]];
    assert Jobs(l.handled) + ([l.batch[0]] + Unhandled(l')) == (Jobs(l.handled) + [l.batch[0]]) + Unhandled(l');
  }

  lemma EndDiscardKeeps(l: Lane, exiting: bool)
    requires Conserved(l) && l.inFlight > 0
    ensures var l' := EndDiscard(l, exiting);
            && Conserved(l') && l'.batch == l.batch && l'.handled == l.handled && l.accepted <= l'.accepted
            && (Counted(l) ==> Counted(l')) && (CountedAtLeast(l) ==> CountedAtLeast(l'))
  {
    EnqueueKeeps(l.(inFlight := l.inFlight - 1), UNLOCK);
  }

  lemma AdvanceKeeps(w: Worker)
    requires Inv(w) && w.phase != Idle
    ensures Inv(AdvancePass(w))
  {
    DumpKeeps(w.urgent);
    if w.urgent.batch != [] {
      RunHeadKeeps(w.urgent, true);
    }
    if w.normal.batch != [] {
      RunHeadKeeps(w.normal, w.exitCode == 0);
    }
    assert |w.urgent.accepted| == |w.urgent.handled| + |w.urgent.batch| + |w.urgent.queue|;
    hide Conserved, Counted, CountedAtLeast, RunHead, ExitAfter;
    match w.phase
    case FirstUrgent =>
    case BeforeDrain =>
    case Draining =>
    case RunNormal =>
    case LastDrain =>
    case LastUrgent =>
  }

  /** Every step of every thread keeps the invariant. */
  lemma NextKeeps(w: Worker, step: Step)
    requires Inv(w) && Enabled(w, step)
    ensures Inv(Next(w, step))
  {
    match step
    case Send(job, toUrgent) =>
      EnqueueKeeps(w.normal, job);
      EnqueueKeeps(w.urgent, job);
    case DiscardBegin(inUrgent) =>
    case DiscardEnd(inUrgent) =>
      EndDiscardKeeps(if inUrgent then w.urgent else w.normal, w.exitCode != 0);
    case StartPass =>
      DumpKeeps(w.normal);
      DumpKeeps(w.urgent);
    case Advance =>
      AdvanceKeeps(w);
    case WakeupFault =>
  }

  // ------------------------------------------------------------------------- runs

  predicate Initial(w: Worker) {
    && w.phase == Idle && w.exitCode == 0 && !w.exited && w.drained == 0
    && w.normal == Lane(w.normal.maxSize, 0, [], [], 0, [], [])
    && w.urgent == Lane(w.urgent.maxSize, 0, [], [], 0, [], [])
  }

  ghost predicate IsRun(ws: seq<Worker>, steps: seq<Step>) {
    && |ws| == |steps| + 1 && Initial(ws[0])
    && forall i {:trigger steps[i]} :: 0 <= i < |steps| ==> Enabled(ws[i], steps[i]) && ws[i + 1] == Next(ws[i], steps[i])
  }

  lemma {:induction false} RunsKeepInv(ws: seq<Worker>, steps: seq<Step>, k: nat)
    requires IsRun(ws, steps) && k <= |steps|
    ensures Inv(ws[k])
  {
    if k > 0 {
      hide Inv, Next;
      RunsKeepInv(ws, steps, k - 1);
      NextKeeps(ws[k - 1], steps[k - 1]);
    }
  }

  lemma LaneParts(l: Lane)
    requires Conserved(l)
    ensures Jobs(l.handled) + l.batch + l.queue == l.accepted && l.accepted[..|l.handled|] == Jobs(l.handled)
  {
    assert Jobs(l.handled) + l.batch + l.queue == Jobs(l.handled) + Unhandled(l);
  }

  /** In every state of every run, per queue: handled, dumped and queued jobs are the accepted jobs in order. */
  lemma RunsConserveJobs(ws: seq<Worker>, steps: seq<Step>, k: nat)
    requires IsRun(ws, steps) && k <= |steps|
    ensures Jobs(ws[k].normal.handled) + ws[k].normal.batch + ws[k].normal.queue == ws[k].normal.accepted
    ensures Jobs(ws[k].urgent.handled) + ws[k].urgent.batch + ws[k].urgent.queue == ws[k].urgent.accepted
  {
    RunsKeepInv(ws, steps, k);
    LaneParts(ws[k].normal);
    LaneParts(ws[k].urgent);
  }

  function LaneOf(w: Worker, inUrgent: bool): Lane {
    if inUrgent then w.urgent else w.normal
  }

  /** `l'` follows `l` in a lane's history: at most the oldest dumped job was handled in between. */
  predicate Follows(l: Lane, l': Lane, mayRun: bool) {
    && l.accepted <= l'.accepted
    && |l'.handled| + |l'.batch| >= |l.handled| + |l.batch|
    && (l'.handled == l.handled ||
        (l.batch != [] && l'.handled == l.handled + [Handled(l.batch[0], (l.discards == 0 || l.batch[0].Forced()) && mayRun)]))
  }

  lemma AdvanceHistory(w: Worker, inUrgent: bool)
    requires w.phase != Idle
    ensures Follows(LaneOf(w, inUrgent), LaneOf(AdvancePass(w), inUrgent), inUrgent || w.exitCode == 0)
  {
    match w.phase
    case FirstUrgent =>
    case BeforeDrain =>
    case Draining =>
    case RunNormal =>
    case LastDrain =>
    case LastUrgent =>
  }

  lemma StepHistory(w: Worker, step: Step, inUrgent: bool)
    requires Enabled(w, step)
    ensures Follows(LaneOf(w, inUrgent), LaneOf(Next(w, step), inUrgent), inUrgent || w.exitCode == 0)
  {
    if step == Advance {
      AdvanceHistory(w, inUrgent);
    }
  }

  lemma {:induction false} HistoryGrows(ws: seq<Worker>, steps: seq<Step>, i: nat, k: nat, inUrgent: bool)
    requires IsRun(ws, steps) && i <= k <= |steps|
    ensures var l, l' := LaneOf(ws[i], inUrgent), LaneOf(ws[k], inUrgent);
            l.accepted <= l'.accepted && l.handled <= l'.handled && |l'.handled| + |l'.batch| >= |l.handled| + |l.batch|
    decreases k - i
  {
    if i < k {
      hide Next;
      HistoryGrows(ws, steps, i, k - 1, inUrgent);
      StepHistory(ws[k - 1], steps[k - 1], inUrgent);
      var l, m, l' := LaneOf(ws[i], inUrgent), LaneOf(ws[k - 1], inUrgent), LaneOf(ws[k], inUrgent);
      PrefixTransitive(l.accepted, m.accepted, l'.accepted);
      PrefixTransitive(l.handled, m.handled, l'.handled);
    }
  }

  /** The worker is about to handle the oldest dumped job of this queue. */
  predicate AboutToHandle(w: Worker, inUrgent: bool) {
    LaneOf(w, inUrgent).batch != [] && if inUrgent then w.phase in {FirstUrgent, Draining, LastUrgent} else w.phase == RunNormal
  }

  /**
   In either queue, a job that is not forced runs exactly when no unlock job is behind
   it, dumped or queued, and no discard is under way; in the normal queue before any exit.
   */
  lemma PlainJobRunsIff(w: Worker, inUrgent: bool)
    requires Inv(w) && AboutToHandle(w, inUrgent) && !LaneOf(w, inUrgent).batch[0].Forced() && (inUrgent || !w.exited)
    ensures var l, l' := LaneOf(w, inUrgent), LaneOf(Next(w, Advance), inUrgent);
            && |l'.handled| == |l.handled| + 1 && l'.handled[|l.handled|].job == l.batch[0]
            && (l'.handled[|l.handled|].ran <==> Unlocks(l.batch[1..] + l.queue) == 0 && l.inFlight == 0)
  {
    var l := LaneOf(w, inUrgent);
    assert Unhandled(l)[1..] == l.batch[1..] + l.queue;
  }

  lemma {:induction false} UnlockCounts(jobs: seq<Job>, j: nat)
    requires j < |jobs| && jobs[j].kind == Unlock
    ensures Unlocks(jobs) >= 1
  {
    if j > 0 {
      UnlockCounts(jobs[1..], j - 1);
    }
  }

  /** While an unlock job is accepted behind the head of the batch, a head that is not forced is skipped. */
  lemma BehindUnlockSkipped(l: Lane, n: nat)
    requires Conserved(l) && CountedAtLeast(l) && l.batch != []
    requires |l.handled| < n < |l.accepted| && l.accepted[n].kind == Unlock
    ensures l.discards > 0
  {
    var j := n - |l.handled|;
    assert l.accepted[n] == Unhandled(l)[j];
    UnlockCounts(Unhandled(l), j);
  }

  /**
   A discard that queued its unlock job is effective: whatever happens later, no job
   accepted before it and not yet handled then is run, unless it is forced.
   */
  lemma {:induction false} DiscardedJobsNeverRun(ws: seq<Worker>, steps: seq<Step>, inUrgent: bool, i: nat, k: nat, p: nat)
    requires IsRun(ws, steps) && i < k <= |steps| && steps[i] == DiscardEnd(inUrgent)
    requires ws[i].exitCode == 0 && HasRoom(LaneOf(ws[i], inUrgent))
    requires |LaneOf(ws[i], inUrgent).handled| <= p < |LaneOf(ws[i], inUrgent).accepted|
    requires p < |LaneOf(ws[k], inUrgent).handled|
    ensures var h := LaneOf(ws[k], inUrgent).handled[p];
            h.job == LaneOf(ws[i], inUrgent).accepted[p] && (h.ran ==> h.job.Forced())
    decreases k - i
  {
    AcceptedIsHandled(ws, steps, inUrgent, i, k, p);
    StepHistory(ws[k - 1], steps[k - 1], inUrgent);
    UnlockQueued(ws[i], inUrgent);
    hide Next, Inv;
    if i + 1 < k {
      if p < |LaneOf(ws[k - 1], inUrgent).handled| {
        DiscardedJobsNeverRun(ws, steps, inUrgent, i, k - 1, p);
      } else {
        SkippedNow(ws, steps, inUrgent, i, k - 1);
      }
    }
  }

  lemma UnlockQueued(w: Worker, inUrgent: bool)
    requires Enabled(w, DiscardEnd(inUrgent)) && w.exitCode == 0 && HasRoom(LaneOf(w, inUrgent))
    ensures var l, l' := LaneOf(w, inUrgent), LaneOf(Next(w, DiscardEnd(inUrgent)), inUrgent);
            l'.accepted == l.accepted + [UNLOCK] && l'.handled == l.handled
  {
  }

  /** Until the unlock job is reached, the lane is discarding. */
  lemma SkippedNow(ws: seq<Worker>, steps: seq<Step>, inUrgent: bool, i: nat, k: nat)
    requires IsRun(ws, steps) && i < k <= |steps| && steps[i] == DiscardEnd(inUrgent)
    requires ws[i].exitCode == 0 && HasRoom(LaneOf(ws[i], inUrgent))
    requires |LaneOf(ws[k], inUrgent).handled| < |LaneOf(ws[i], inUrgent).accepted| && LaneOf(ws[k], inUrgent).batch != []
    ensures LaneOf(ws[k], inUrgent).discards > 0
  {
    UnlockQueued(ws[i], inUrgent);
    hide Next, Inv;
    HistoryGrows(ws, steps, i + 1, k, inUrgent);
    RunsKeepInv(ws, steps, k);
    InvLane(ws[k], inUrgent);
    BehindUnlockSkipped(LaneOf(ws[k], inUrgent), |LaneOf(ws[i], inUrgent).accepted|);
  }

  lemma InvLane(w: Worker, inUrgent: bool)
    requires Inv(w)
    ensures Conserved(LaneOf(w, inUrgent)) && CountedAtLeast(LaneOf(w, inUrgent))
  {
  }

  /** The job handled at position `p` is the one accepted at position `p`. */
  lemma AcceptedIsHandled(ws: seq<Worker>, steps: seq<Step>, inUrgent: bool, i: nat, k: nat, p: nat)
    requires IsRun(ws, steps) && i <= k <= |steps|
    requires p < |LaneOf(ws[i], inUrgent).accepted| && p < |LaneOf(ws[k], inUrgent).handled|
    ensures LaneOf(ws[k], inUrgent).handled[p].job == LaneOf(ws[i], inUrgent).accepted[p]
  {
    hide Next, Inv;
    HistoryGrows(ws, steps, i, k, inUrgent);
    RunsKeepInv(ws, steps, k);
    InvLane(ws[k], inUrgent);
    var l := LaneOf(ws[k], inUrgent);
    LaneParts(l);
    assert l.accepted[p] == Jobs(l.handled)[p];
  }

  // ------------------------------------------------------------- refused discards

  /** The unlock job is refused exactly if the worker is exiting or the queue is full; then only the counter is taken back. */
  lemma DiscardRefusedIff(w: Worker, inUrgent: bool)
    requires Inv(w) && Enabled(w, DiscardEnd(inUrgent))
    ensures var l, l' := LaneOf(w, inUrgent), LaneOf(Next(w, DiscardEnd(inUrgent)), inUrgent);
            && (l'.accepted == l.accepted <==> w.exitCode != 0 || !HasRoom(l))
            && (l'.accepted == l.accepted ==> l' == l.(inFlight := l.inFlight - 1, discards := l.discards - 1))
  {
    InvLane(w, inUrgent);
  }

  /** The same jobs handled, except that `h` skips unforced ones, at positions from `lo` to `hi`, that `h'` may run. */
  predicate SkipsMore(h: seq<Handled>, h': seq<Handled>, lo: nat, hi: nat) {
    && |h| == |h'|
    && forall p :: 0 <= p < |h| ==>
         h[p].job == h'[p].job && (h[p] == h'[p] || (lo <= p < hi && !h[p].ran && !h[p].job.Forced()))
  }

  /** The lane with one more discard under way. */
  predicate LaneBeside(l: Lane, l': Lane, lo: nat) {
    && l == l'.(discards := l'.discards + 1, inFlight := l'.inFlight + 1, handled := l.handled)
    && lo <= |l.handled| && SkipsMore(l.handled, l'.handled, lo, |l.handled|)
  }

  predicate LaneRejoined(l: Lane, l': Lane, lo: nat, hi: nat) {
    l == l'.(handled := l.handled) && SkipsMore(l.handled, l'.handled, lo, hi)
  }

  /** The workers are the same outside this lane. */
  predicate SameRest(w: Worker, w': Worker, inUrgent: bool) {
    if inUrgent then w' == w.(urgent := w'.urgent) else w' == w.(normal := w'.normal)
  }

  lemma RunHeadBeside(l: Lane, l': Lane, lo: nat, mayRun: bool)
    requires LaneBeside(l, l', lo) && l.batch != [] && CountedAtLeast(l')
    ensures LaneBeside(RunHead(l, mayRun), RunHead(l', mayRun), lo)
  {
    assert Unlocks(Unhandled(l')) >= 1 || l.batch[0].kind != Unlock;
  }

  lemma EndDiscardBeside(l: Lane, l': Lane, lo: nat, exiting: bool)
    requires LaneBeside(l, l', lo) && l'.inFlight > 0 && CountedAtLeast(l')
    ensures LaneBeside(EndDiscard(l, exiting), EndDiscard(l', exiting), lo)
  {
  }

  lemma AdvanceBeside(w: Worker, w': Worker, inUrgent: bool, lo: nat)
    requires SameRest(w, w', inUrgent) && LaneBeside(LaneOf(w, inUrgent), LaneOf(w', inUrgent), lo) && Inv(w') && w.phase != Idle
    ensures SameRest(AdvancePass(w), AdvancePass(w'), inUrgent)
    ensures LaneBeside(LaneOf(AdvancePass(w), inUrgent), LaneOf(AdvancePass(w'), inUrgent), lo)
  {
    InvLane(w', inUrgent);
    var l, l' := LaneOf(w, inUrgent), LaneOf(w', inUrgent);
    if l.batch != [] {
      RunHeadBeside(l, l', lo, inUrgent || w.exitCode == 0);
    }
    hide Inv, Counted, CountedAtLeast, Conserved, RunHead, SkipsMore;
    assert l.batch != [] ==> ExitAfter(l, inUrgent || w.exitCode == 0, w.exitCode) == ExitAfter(l', inUrgent || w.exitCode == 0, w.exitCode);
    match w.phase
    case FirstUrgent =>
    case BeforeDrain =>
    case Draining =>
    case RunNormal =>
    case LastDrain =>
    case LastUrgent =>
  }

  /** A step taken with and without one more discard under way. */
  lemma StepBeside(w: Worker, w': Worker, step: Step, inUrgent: bool, lo: nat)
    requires SameRest(w, w', inUrgent) && LaneBeside(LaneOf(w, inUrgent), LaneOf(w', inUrgent), lo) && Inv(w')
    requires Enabled(w, step) && (step == DiscardEnd(inUrgent) ==> LaneOf(w, inUrgent).inFlight > 1)
    ensures Enabled(w', step)
    ensures SameRest(Next(w, step), Next(w', step), inUrgent)
    ensures LaneBeside(LaneOf(Next(w, step), inUrgent), LaneOf(Next(w', step), inUrgent), lo)
  {
    InvLane(w', inUrgent);
    if step == DiscardEnd(inUrgent) {
      EndDiscardBeside(LaneOf(w, inUrgent), LaneOf(w', inUrgent), lo, w.exitCode != 0);
    } else if step == Advance {
      AdvanceBeside(w, w', inUrgent, lo);
    }
    hide Inv, SkipsMore, AdvancePass;
  }

  lemma AdvanceRejoined(w: Worker, w': Worker, inUrgent: bool, lo: nat, hi: nat)
    requires SameRest(w, w', inUrgent) && LaneRejoined(LaneOf(w, inUrgent), LaneOf(w', inUrgent), lo, hi) && w.phase != Idle
    ensures SameRest(AdvancePass(w), AdvancePass(w'), inUrgent)
    ensures LaneRejoined(LaneOf(AdvancePass(w), inUrgent), LaneOf(AdvancePass(w'), inUrgent), lo, hi)
  {
    match w.phase
    case FirstUrgent =>
    case BeforeDrain =>
    case Draining =>
    case RunNormal =>
    case LastDrain =>
    case LastUrgent =>
  }

  lemma StepRejoined(w: Worker, w': Worker, step: Step, inUrgent: bool, lo: nat, hi: nat)
    requires SameRest(w, w', inUrgent) && LaneRejoined(LaneOf(w, inUrgent), LaneOf(w', inUrgent), lo, hi) && Enabled(w, step)
    ensures Enabled(w', step)
    ensures SameRest(Next(w, step), Next(w', step), inUrgent)
    ensures LaneRejoined(LaneOf(Next(w, step), inUrgent), LaneOf(Next(w', step), inUrgent), lo, hi)
  {
    if step == Advance {
      AdvanceRejoined(w, w', inUrgent, lo, hi);
    }
    hide SkipsMore, AdvancePass;
  }

  /** The first `n` steps without those at `i` and `j`. */
  function Dropped(steps: seq<Step>, i: nat, j: nat, n: nat): seq<Step>
    requires i < j && n <= |steps|
  {
    if n <= i then steps[..n] else if n <= j then steps[..i] + steps[i + 1..n] else steps[..i] + steps[i + 1..j] + steps[j + 1..n]
  }

  lemma DroppedNext(steps: seq<Step>, i: nat, j: nat, n: nat)
    requires i < j < |steps| && n < |steps|
    ensures Dropped(steps, i, j, n + 1) == Dropped(steps, i, j, n) + if n == i || n == j then [] else [steps[n]]
  {
    if i < n < j {
      assert steps[i + 1..n + 1] == steps[i + 1..n] + [steps[n]];
    } else if j < n {
      assert steps[j + 1..n + 1] == steps[j + 1..n] + [steps[n]];
    } else if n < i {
      assert steps[..n + 1] == steps[..n] + [steps[n]];
    }
  }

  lemma ExtendRun(ws: seq<Worker>, steps: seq<Step>, step: Step)
    requires IsRun(ws, steps) && Enabled(ws[|steps|], step)
    ensures IsRun(ws + [Next(ws[|steps|], step)], steps + [step])
  {
    var ws', steps' := ws + [Next(ws[|steps|], step)], steps + [step];
    forall i {:trigger steps'[i]} | 0 <= i < |steps'| ensures Enabled(ws'[i], steps'[i]) && ws'[i + 1] == Next(ws'[i], steps'[i]) {
      if i < |steps| {
        assert steps'[i] == steps[i];
      }
    }
  }

  /** The discard begun at `i` is under way until `j`: what ends in between are other discards. */
  predicate UnderWay(ws: seq<Worker>, steps: seq<Step>, inUrgent: bool, i: nat, j: nat) {
    && i < j < |steps| < |ws| && steps[i] == DiscardBegin(inUrgent) && steps[j] == DiscardEnd(inUrgent)
    && forall m {:trigger steps[m]} :: i < m < j && steps[m] == DiscardEnd(inUrgent) ==> LaneOf(ws[m], inUrgent).inFlight > 1
  }

  /** How the run compares, after `n` steps, with the run without the discard. */
  predicate Compared(w: Worker, w': Worker, inUrgent: bool, i: nat, j: nat, n: nat, lo: nat, hi: nat) {
    if n <= i then w == w'
    else && SameRest(w, w', inUrgent)
         && if n <= j then LaneBeside(LaneOf(w, inUrgent), LaneOf(w', inUrgent), lo)
            else LaneRejoined(LaneOf(w, inUrgent), LaneOf(w', inUrgent), lo, hi)
  }

  /** The step at position `n`: the discard's own two steps, the second refused, or another one. */
  predicate StepFits(w: Worker, step: Step, inUrgent: bool, i: nat, j: nat, n: nat, lo: nat, hi: nat) {
    && i < j && Enabled(w, step)
    && (n == i ==> step == DiscardBegin(inUrgent) && lo == |LaneOf(w, inUrgent).handled|)
    && (n == j ==> step == DiscardEnd(inUrgent) && hi == |LaneOf(w, inUrgent).handled| && (w.exitCode != 0 || !HasRoom(LaneOf(w, inUrgent))))
    && (i < n < j && step == DiscardEnd(inUrgent) ==> LaneOf(w, inUrgent).inFlight > 1)
  }

  /** One step of the comparison. */
  lemma ComparedStep(w: Worker, w': Worker, step: Step, inUrgent: bool, i: nat, j: nat, n: nat, lo: nat, hi: nat)
    requires StepFits(w, step, inUrgent, i, j, n, lo, hi) && Compared(w, w', inUrgent, i, j, n, lo, hi) && Inv(w) && Inv(w')
    ensures Enabled(w, step) && (n == i || n == j ==> Compared(Next(w, step), w', inUrgent, i, j, n + 1, lo, hi))
    ensures n != i && n != j ==> Enabled(w', step) && Compared(Next(w, step), Next(w', step), inUrgent, i, j, n + 1, lo, hi)
  {
    if n == i {
      assert LaneBeside(LaneOf(Next(w, step), inUrgent), LaneOf(w', inUrgent), lo);
    } else if n == j {
      DiscardRefusedIff(w, inUrgent);
    } else if i < n < j {
      StepBeside(w, w', step, inUrgent, lo);
    } else if j < n {
      StepRejoined(w, w', step, inUrgent, lo, hi);
    }
    hide Inv, AdvancePass;
  }

  /** A discard of the run is refused. */
  ghost predicate Refused(ws: seq<Worker>, steps: seq<Step>, inUrgent: bool, i: nat, j: nat) {
    && IsRun(ws, steps) && UnderWay(ws, steps, inUrgent, i, j)
    && (ws[j].exitCode != 0 || !HasRoom(LaneOf(ws[j], inUrgent)))
  }

  /** `ws'` is the run without the discard, as far as step `n`, and its last state compares as it should. */
  ghost predicate Alongside(ws: seq<Worker>, steps: seq<Step>, inUrgent: bool, i: nat, j: nat, n: nat, ws': seq<Worker>)
    requires Refused(ws, steps, inUrgent, i, j) && n <= |steps|
  {
    && IsRun(ws', Dropped(steps, i, j, n))
    && Compared(ws[n], ws'[|ws'| - 1], inUrgent, i, j, n, |LaneOf(ws[i], inUrgent).handled|, |LaneOf(ws[j], inUrgent).handled|)
  }

  lemma RefusedStep(ws: seq<Worker>, steps: seq<Step>, inUrgent: bool, i: nat, j: nat, n: nat)
    requires Refused(ws, steps, inUrgent, i, j) && n < |steps|
    ensures var lo, hi := |LaneOf(ws[i], inUrgent).handled|, |LaneOf(ws[j], inUrgent).handled|;
            StepFits(ws[n], steps[n], inUrgent, i, j, n, lo, hi) && Enabled(ws[n], steps[n]) && ws[n + 1] == Next(ws[n], steps[n]) && Inv(ws[n])
  {
    RunsKeepInv(ws, steps, n);
    hide Inv, Next;
  }

  lemma AlongsideStart(ws: seq<Worker>, steps: seq<Step>, inUrgent: bool, i: nat, j: nat) returns (ws': seq<Worker>)
    requires Refused(ws, steps, inUrgent, i, j)
    ensures Alongside(ws, steps, inUrgent, i, j, 0, ws')
  {
    hide Next;
    assert Dropped(steps, i, j, 0) == [];
    ws' := [ws[0]];
  }

  lemma AlongsideNext(ws: seq<Worker>, steps: seq<Step>, inUrgent: bool, i: nat, j: nat, n: nat, ws': seq<Worker>) returns (ws'': seq<Worker>)
    requires Refused(ws, steps, inUrgent, i, j) && n < |steps| && Alongside(ws, steps, inUrgent, i, j, n, ws')
    ensures Alongside(ws, steps, inUrgent, i, j, n + 1, ws'')
  {
    var rest := Dropped(steps, i, j, n);
    var lo, hi := |LaneOf(ws[i], inUrgent).handled|, |LaneOf(ws[j], inUrgent).handled|;
    assert i < j < |steps| && |ws'| == |rest| + 1;
    var w, w', step := ws[n], ws'[|rest|], steps[n];
    hide Inv, Next, Enabled, Compared, Dropped, StepFits, LaneOf, Initial, UnderWay, Refused;
    RefusedStep(ws, steps, inUrgent, i, j, n);
    RunsKeepInv(ws', rest, |rest|);
    DroppedNext(steps, i, j, n);
    ComparedStep(w, w', step, inUrgent, i, j, n, lo, hi);
    if n != i && n != j {
      ExtendRun(ws', rest, step);
      ws'' := ws' + [Next(w', step)];
    } else {
      assert rest + [] == rest;
      ws'' := ws';
    }
  }

  /**
   A refused discard, begun at `i` and ended at `j`, is compared with the run that is the
   same without it. After `j` the workers agree in everything but the unforced jobs that
   were reached between `i` and `j`: these were skipped, and run without the discard
   unless something else had them skipped.
   */
  lemma {:induction false} RefusedDiscard(ws: seq<Worker>, steps: seq<Step>, inUrgent: bool, i: nat, j: nat, n: nat) returns (ws': seq<Worker>)
    requires Refused(ws, steps, inUrgent, i, j) && n <= |steps|
    ensures Alongside(ws, steps, inUrgent, i, j, n, ws')
    decreases n
  {
    hide Refused, Alongside;
    if n == 0 {
      ws' := AlongsideStart(ws, steps, inUrgent, i, j);
    } else {
      ws' := RefusedDiscard(ws, steps, inUrgent, i, j, n - 1);
      ws' := AlongsideNext(ws, steps, inUrgent, i, j, n - 1, ws');
    }
  }

  lemma RunStep(ws: seq<Worker>, steps: seq<Step>, k: nat)
    requires IsRun(ws, steps) && k < |steps|
    ensures |ws| == |steps| + 1 && Enabled(ws[k], steps[k]) && ws[k + 1] == Next(ws[k], steps[k])
  {
  }

  lemma StepInFlight(w: Worker, step: Step, inUrgent: bool)
    requires Enabled(w, step)
    ensures LaneOf(Next(w, step), inUrgent).inFlight ==
            LaneOf(w, inUrgent).inFlight + (if step == DiscardBegin(inUrgent) then 1 else if step == DiscardEnd(inUrgent) then -1 else 0)
  {
  }

  lemma {:induction false} StillUnderWay(ws: seq<Worker>, steps: seq<Step>, inUrgent: bool, i: nat, j: nat, k: nat)
    requires IsRun(ws, steps) && UnderWay(ws, steps, inUrgent, i, j) && i < k <= j
    ensures LaneOf(ws[k], inUrgent).inFlight > 0
    decreases k
  {
    RunStep(ws, steps, k - 1);
    StepInFlight(ws[k - 1], steps[k - 1], inUrgent);
    hide Next, Enabled, IsRun;
    if k > i + 1 {
      StillUnderWay(ws, steps, inUrgent, i, j, k - 1);
    }
  }

  /** While a discard is under way, refused in the end or not, no unforced job is run. */
  lemma {:induction false} NoneRunMeanwhile(ws: seq<Worker>, steps: seq<Step>, inUrgent: bool, i: nat, j: nat, k: nat, p: nat)
    requires IsRun(ws, steps) && UnderWay(ws, steps, inUrgent, i, j) && i < k <= j
    requires |LaneOf(ws[i], inUrgent).handled| <= p < |LaneOf(ws[k], inUrgent).handled|
    ensures LaneOf(ws[k], inUrgent).handled[p].ran ==> LaneOf(ws[k], inUrgent).handled[p].job.Forced()
    decreases k
  {
    RunStep(ws, steps, k - 1);
    StepHistory(ws[k - 1], steps[k - 1], inUrgent);
    hide Next, Enabled, IsRun;
    if k - 1 > i {
      RunsKeepInv(ws, steps, k - 1);
      InvLane(ws[k - 1], inUrgent);
      StillUnderWay(ws, steps, inUrgent, i, j, k - 1);
      hide Next, Inv;
      if p < |LaneOf(ws[k - 1], inUrgent).handled| {
        NoneRunMeanwhile(ws, steps, inUrgent, i, j, k - 1, p);
      }
    }
  }

  const JOB_A := Job(1, Plain(false))
  const JOB_B := Job(2, Plain(false))
  const NO_URGENT := Lane(0, 0, [], [], 0, [], [])

  /** A worker whose normal queue holds one job. */
  function Small(normal: Lane, phase: Phase): Worker {
    Worker(normal, NO_URGENT, 0, false, phase, 0)
  }

  /** From the start of a pass to the end of its first normal job, if nothing urgent comes up: four steps. */
  lemma PassToFirstJob(l: Lane) returns (ws: seq<Worker>)
    requires l.batch != [] && l.batch[0].kind.Plain?
    ensures |ws| == 5 && ws[0] == Small(l, FirstUrgent) && ws[4] == Small(RunHead(l, true), BeforeDrain)
    ensures forall i :: 0 <= i < 4 ==> ws[i].phase != Idle && ws[i + 1] == AdvancePass(ws[i])
  {
    ws := [Small(l, FirstUrgent), Small(l, BeforeDrain), Small(l, Draining), Small(l, RunNormal), Small(RunHead(l, true), BeforeDrain)];
    assert NO_URGENT == Dump(NO_URGENT);
    hide RunHead;
  }

  const QUEUED_A := Lane(1, 0, [JOB_A], [], 0, [], [JOB_A])

  /** A job queued before a discard that the full queue refuses is run after it. */
  lemma RefusedDiscardRuns() returns (ws: seq<Worker>, steps: seq<Step>)
    ensures IsRun(ws, steps) && |steps| == 8 && steps[1] == DiscardBegin(false) && steps[2] == DiscardEnd(false)
    ensures ws[1].normal.accepted == [JOB_A] && ws[3].normal.handled == [] && ws[8].normal.handled == [Handled(JOB_A, true)]
  {
    hide AdvancePass;
    var s0 := Small(Lane(1, 0, [], [], 0, [], []), Idle);
    var s1 := Small(QUEUED_A, Idle);
    var s2 := Small(QUEUED_A.(discards := 1, inFlight := 1), Idle);
    var begun := QUEUED_A.(queue := [], batch := [JOB_A]);
    var tail := PassToFirstJob(begun);
    steps := [Send(JOB_A, false), DiscardBegin(false), DiscardEnd(false), StartPass, Advance, Advance, Advance, Advance];
    ws := [s0, s1, s2, s1] + tail;
    assert s1 == Next(s0, steps[0]) && s2 == Next(s1, steps[1]) && s1 == Next(s2, steps[2]) && tail[0] == Next(s1, steps[3]);
    assert RunHead(begun, true).handled == [Handled(JOB_A, true)];
    forall i {:trigger steps[i]} | 0 <= i < 8 ensures Enabled(ws[i], steps[i]) && ws[i + 1] == Next(ws[i], steps[i]) {
      assert i >= 4 ==> ws[i] == tail[i - 4] && ws[i + 1] == tail[i - 3] && steps[i] == Advance;
    }
  }

  /** A job reached while a discard is under way is skipped, although the full queue then refuses the discard. */
  lemma RefusedDiscardSkips() returns (ws: seq<Worker>, steps: seq<Step>)
    ensures IsRun(ws, steps) && |steps| == 9 && steps[3] == DiscardBegin(false) && steps[8] == DiscardEnd(false)
    ensures ws[9].normal.accepted == [JOB_A, JOB_B] && ws[9].normal.handled == [Handled(JOB_A, false)] && ws[9].normal.discards == 0
  {
    hide AdvancePass;
    var s0 := Small(Lane(1, 0, [], [], 0, [], []), Idle);
    var s1 := Small(QUEUED_A, Idle);
    var s2 := Small(QUEUED_A.(queue := [], batch := [JOB_A]), FirstUrgent);
    var s3 := Small(Lane(1, 0, [JOB_B], [JOB_A], 0, [], [JOB_A, JOB_B]), FirstUrgent);
    var begun := Lane(1, 1, [JOB_B], [JOB_A], 1, [], [JOB_A, JOB_B]);
    var tail := PassToFirstJob(begun);
    var s9 := Small(Lane(1, 0, [JOB_B], [], 0, [Handled(JOB_A, false)], [JOB_A, JOB_B]), BeforeDrain);
    steps := [Send(JOB_A, false), StartPass, Send(JOB_B, false), DiscardBegin(false), Advance, Advance, Advance, Advance, DiscardEnd(false)];
    ws := [s0, s1, s2, s3] + tail + [s9];
    assert [JOB_A] + [JOB_B] == [JOB_A, JOB_B];
    assert s1 == Next(s0, steps[0]) && s2 == Next(s1, steps[1]) && s3 == Next(s2, steps[2]) && tail[0] == Next(s3, steps[3]);
    assert RunHead(begun, true) == Lane(1, 1, [JOB_B], [], 1, [Handled(JOB_A, false)], [JOB_A, JOB_B]);
    assert s9 == Next(tail[4], steps[8]);
    forall i {:trigger steps[i]} | 0 <= i < 9 ensures Enabled(ws[i], steps[i]) && ws[i + 1] == Next(ws[i], steps[i]) {
      assert 4 <= i < 8 ==> ws[i] == tail[i - 4] && ws[i + 1] == tail[i - 3] && steps[i] == Advance;
    }
  }

  /**
   Every urgent job accepted before the drain that precedes a normal job is handled
   before that normal job: `i` is the drain, `k` the moment the normal job is taken.
   */
  lemma {:induction false} UrgentBeforeNormal(ws: seq<Worker>, steps: seq<Step>, i: nat, k: nat)
    requires IsRun(ws, steps) && i < k <= |steps|
    requires ws[i].phase == BeforeDrain && ws[i].normal.batch != [] && steps[i] == Advance
    requires forall j :: i < j <= k ==> ws[j].phase in {Draining, RunNormal}
    ensures ws[k].phase == RunNormal ==> Jobs(ws[k].urgent.handled) == ws[i].urgent.accepted
  {
    DrainedSince(ws, steps, i, k);
    RunsKeepInv(ws, steps, k);
    HistoryGrows(ws, steps, i, k, true);
    LaneParts(ws[k].urgent);
    if ws[k].phase == RunNormal {
      assert Jobs(ws[k].urgent.handled) == ws[k].urgent.accepted[..ws[k].drained];
    }
  }

  lemma {:induction false} DrainedSince(ws: seq<Worker>, steps: seq<Step>, i: nat, k: nat)
    requires IsRun(ws, steps) && i < k <= |steps|
    requires ws[i].phase == BeforeDrain && ws[i].normal.batch != [] && steps[i] == Advance
    requires forall j :: i < j <= k ==> ws[j].phase in {Draining, RunNormal}
    ensures ws[k].drained == |ws[i].urgent.accepted|
    decreases k
  {
    assert Enabled(ws[k - 1], steps[k - 1]);
    if i + 1 < k {
      DrainedSince(ws, steps, i, k - 1);
    }
  }

  /** The job enters the queue it is sent to, at the end, if the worker is not exiting and there is room; else neither changes. */
  lemma SendEnters(w: Worker, job: Job, toUrgent: bool)
    requires Enabled(w, Send(job, toUrgent))
    ensures var l := LaneOf(w, toUrgent);
            var w' := Next(w, Send(job, toUrgent));
            && (if w.exitCode == 0 && (l.maxSize == 0 || |l.queue| < l.maxSize)
                then LaneOf(w', toUrgent) == l.(queue := l.queue + [job], accepted := l.accepted + [job])
                else LaneOf(w', toUrgent) == l)
            && LaneOf(w', !toUrgent) == LaneOf(w, !toUrgent)
            && w' == w.(normal := w'.normal, urgent := w'.urgent)
  {
  }

  /**
   The exit code changes only by an exit job that is run, to the code it carries, and by a
   broken wakeup descriptor, to one. While it is set no normal job is run; urgent ones are.
   */
  lemma ExitsExactly(w: Worker, step: Step, inUrgent: bool)
    requires Enabled(w, step)
    ensures var w' := Next(w, step);
            var l, l' := LaneOf(w, inUrgent), LaneOf(w', inUrgent);
            && (step == WakeupFault ==> w'.exitCode == 1)
            && (step != WakeupFault && w'.normal.handled == w.normal.handled && w'.urgent.handled == w.urgent.handled ==> w'.exitCode == w.exitCode)
            && (l'.handled != l.handled ==>
                && l.batch != [] && l'.handled == l.handled + [Handled(l.batch[0], l'.handled[|l.handled|].ran)]
                && var job, ran := l.batch[0], l'.handled[|l.handled|].ran;
                   && w'.exitCode == (if ran && job.kind.Exit? then job.kind.code else w.exitCode)
                   && (ran <==> (l.discards == 0 || job.kind != Plain(false)) && (inUrgent || w.exitCode == 0)))
  {
    if step == Advance {
      AdvanceExits(w, inUrgent);
    }
  }

  lemma AdvanceExits(w: Worker, inUrgent: bool)
    requires w.phase != Idle
    ensures var w' := AdvancePass(w);
            var l, l' := LaneOf(w, inUrgent), LaneOf(w', inUrgent);
            && (w'.normal.handled == w.normal.handled && w'.urgent.handled == w.urgent.handled ==> w'.exitCode == w.exitCode)
            && (l'.handled != l.handled ==>
                && l.batch != [] && l'.handled == l.handled + [Handled(l.batch[0], l'.handled[|l.handled|].ran)]
                && var job, ran := l.batch[0], l'.handled[|l.handled|].ran;
                   && w'.exitCode == (if ran && job.kind.Exit? then job.kind.code else w.exitCode)
                   && (ran <==> (l.discards == 0 || job.kind != Plain(false)) && (inUrgent || w.exitCode == 0)))
  {
    match w.phase
    case FirstUrgent =>
    case BeforeDrain =>
    case Draining =>
    case RunNormal =>
    case LastDrain =>
    case LastUrgent =>
  }

  /** The step handles a normal job. */
  predicate HandlesNormal(w: Worker, w': Worker) {
    |w'.normal.handled| > |w.normal.handled|
  }

  /** Normal jobs are handled in one phase only, with all that was drained handled before, and another drain comes next. */
  lemma NormalTurn(w: Worker, step: Step)
    requires Inv(w) && Enabled(w, step) && HandlesNormal(w, Next(w, step))
    ensures step == Advance && |w.urgent.handled| == w.drained && Next(w, step).phase == BeforeDrain
  {
  }

  /** Until the next drain the worker is about to drain; afterwards at least `n` urgent jobs have been drained. */
  predicate DrainDue(w: Worker, n: nat) {
    w.phase in {BeforeDrain, LastDrain} || w.drained >= n
  }

  lemma DrainDueKept(w: Worker, step: Step, n: nat)
    requires Inv(w) && Enabled(w, step) && DrainDue(w, n) && n <= |w.urgent.accepted|
    ensures DrainDue(Next(w, step), n)
  {
  }

  lemma {:induction false} DrainDueInRun(ws: seq<Worker>, steps: seq<Step>, i: nat, k: nat, n: nat)
    requires IsRun(ws, steps) && i <= k <= |steps| && DrainDue(ws[i], n) && n <= |ws[i].urgent.accepted|
    ensures DrainDue(ws[k], n)
    decreases k - i
  {
    if i < k {
      hide DrainDue, Next, Inv;
      DrainDueInRun(ws, steps, i, k - 1, n);
      HistoryGrows(ws, steps, i, k - 1, true);
      RunsKeepInv(ws, steps, k - 1);
      RunStep(ws, steps, k - 1);
      DrainDueKept(ws[k - 1], steps[k - 1], n);
    }
  }

  /**
   Urgent jobs overtake: what the urgent queue accepted before a normal job was handled, or
   before a pass began, is handled before the next normal job, whichever that is.
   */
  lemma UrgentOvertakes(ws: seq<Worker>, steps: seq<Step>, i: nat, k: nat)
    requires IsRun(ws, steps) && i < k < |steps| && HandlesNormal(ws[k], ws[k + 1])
    requires HandlesNormal(ws[i], ws[i + 1]) || steps[i] == StartPass
    ensures ws[i].urgent.accepted <= Jobs(ws[k].urgent.handled)
  {
    var n := |ws[i].urgent.accepted|;
    RunStep(ws, steps, i);
    RunStep(ws, steps, k);
    RunsKeepInv(ws, steps, i);
    RunsKeepInv(ws, steps, k);
    HistoryGrows(ws, steps, i, i + 1, true);
    HistoryGrows(ws, steps, i, k, true);
    if steps[i] != StartPass {
      NormalTurn(ws[i], steps[i]);
    }
    assert DrainDue(ws[i + 1], n);
    DrainDueInRun(ws, steps, i + 1, k, n);
    NormalTurn(ws[k], steps[k]);
    NormalPhase(ws[k], steps[k]);
    InvLane(ws[k], true);
    hide Next, Inv, IsRun, Enabled, HandlesNormal, Jobs;
    LaneParts(ws[k].urgent);
    assert ws[k].urgent.accepted[..|ws[k].urgent.handled|][..n] == ws[i].urgent.accepted;
  }

  lemma NormalPhase(w: Worker, step: Step)
    requires Enabled(w, step) && HandlesNormal(w, Next(w, step))
    ensures w.phase == RunNormal
  {
  }

  /**
   An urgent job that is sent, not refused, before a normal job is handled or a pass begins
   is handled before the next normal job.
   */
  lemma UrgentSentOvertakes(ws: seq<Worker>, steps: seq<Step>, j: nat, i: nat, k: nat)
    requires IsRun(ws, steps) && j < i < k < |steps| && steps[j].Send? && steps[j].toUrgent
    requires ws[j].exitCode == 0 && (ws[j].urgent.maxSize == 0 || |ws[j].urgent.queue| < ws[j].urgent.maxSize)
    requires HandlesNormal(ws[i], ws[i + 1]) || steps[i] == StartPass
    requires HandlesNormal(ws[k], ws[k + 1])
    ensures var p := |ws[j].urgent.accepted|;
            p < |ws[k].urgent.handled| && ws[k].urgent.handled[p].job == steps[j].job
  {
    RunStep(ws, steps, j);
    SendEnters(ws[j], steps[j].job, true);
    HistoryGrows(ws, steps, j + 1, i, true);
    UrgentOvertakes(ws, steps, i, k);
    hide Next, Inv, IsRun, Enabled, HandlesNormal;
    var p := |ws[j].urgent.accepted|;
    assert ws[i].urgent.accepted[p] == steps[j].job;
    assert Jobs(ws[k].urgent.handled)[p] == steps[j].job;
  }

  /** When a pass is over, every job accepted before it started has been handled. */
  lemma PassHandlesAll(ws: seq<Worker>, steps: seq<Step>, i: nat, k: nat, inUrgent: bool)
    requires IsRun(ws, steps) && i < k <= |steps| && steps[i] == StartPass && ws[k].phase == Idle
    ensures LaneOf(ws[i], inUrgent).accepted <= Jobs(LaneOf(ws[k], inUrgent).handled)
  {
    RunStep(ws, steps, i);
    RunsKeepInv(ws, steps, i);
    RunsKeepInv(ws, steps, k);
    StartDumpsAll(ws[i], inUrgent);
    IdleBatchEmpty(ws[k], inUrgent);
    HistoryGrows(ws, steps, i, k, inUrgent);
    HistoryGrows(ws, steps, i + 1, k, inUrgent);
    hide Next, Inv, Jobs, IsRun, Enabled;
    var l, l' := LaneOf(ws[i], inUrgent), LaneOf(ws[k], inUrgent);
    LaneParts(l');
    assert l'.accepted[..|l.accepted|] == l'.accepted[..|l'.handled|][..|l.accepted|];
  }

  lemma StartDumpsAll(w: Worker, inUrgent: bool)
    requires Inv(w) && w.phase == Idle
    ensures var l, l' := LaneOf(w, inUrgent), LaneOf(Next(w, StartPass), inUrgent);
            |l'.handled| + |l'.batch| == |l.accepted|
  {
    LaneParts(LaneOf(w, inUrgent));
  }

  lemma IdleBatchEmpty(w: Worker, inUrgent: bool)
    requires Inv(w) && w.phase == Idle
    ensures LaneOf(w, inUrgent).batch == [] && Conserved(LaneOf(w, inUrgent))
  {
  }
}
