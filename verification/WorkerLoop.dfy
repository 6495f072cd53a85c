/**
 CBaseWorker::CJobQueue and CBaseWorker::processJobQueue in place. Other threads act
 between any two steps of the pass, as a script given by the caller.
 */
module WorkerLoop {
  import opened Common
  import opened JobQueue

  /** CJobQueue, with the vector its jobs are dumped to and, as ghosts, its history. */
  class Queue {
    const maxSize: nat
    var discardCnt: nat
    var jobs: seq<Job>
    var dumped: seq<Job>
    var inFlight: nat  // discards that other threads have begun and not ended
    ghost var handled: seq<Handled>
    ghost var accepted: seq<Job>

    ghost function View(): Lane
      reads this
    {
      Lane(maxSize, discardCnt, jobs, dumped, inFlight, handled, accepted)
    }

    constructor (maxSize: nat)
      ensures View() == Lane(maxSize, 0, [], [], 0, [], [])
    {
      this.maxSize := maxSize;
      discardCnt, jobs, dumped, inFlight, handled, accepted := 0, [], [], 0, [], [];
    }

    /** enqueue: a job is accepted exactly if there is room, and then comes after all that were accepted before. */
    method TryEnqueue(job: Job) returns (ok: bool)
      modifies this
      ensures View() == Enqueue(old(View()), job) && (ok <==> maxSize == 0 || |old(jobs)| < maxSize)
      ensures accepted == old(accepted) + if ok then [job] else []
      ensures old(Conserved(View())) ==> Conserved(View())
    {
      if Conserved(View()) {
        EnqueueKeeps(View(), job);
      }
      ok := maxSize == 0 || |jobs| < maxSize;
      if ok {
        jobs, accepted := jobs + [job], accepted + [job];
      }
    }

    /** dumpJobs: the queue is empty afterwards, and what is still to be handled is the same, in the same order. */
    method DumpJobs()
      modifies this
      ensures View() == Dump(old(View())) && jobs == [] && Unhandled(View()) == old(Unhandled(View()))
    {
      dumped, jobs := dumped + jobs, [];
    }

    method PickupJobs()
      modifies this
      ensures View() == Pickup(old(View()))
    {
      if discardCnt > 0 {
        discardCnt := discardCnt - 1;
      }
    }

    /**
     runOneJob for the oldest dumped job. Given the invariant of the queue, it is the job
     accepted next after those handled; and if it may run and is not forced, it is run
     exactly if no unlock job is behind it and no discard is under way.
     */
    method RunOldest(mayRun: bool) returns (job: Job, ran: bool)
      requires dumped != []
      modifies this
      ensures View() == RunHead(old(View()), mayRun) && handled == old(handled) + [Handled(job, ran)]
      ensures job == old(dumped[0]) && ran == ((old(discardCnt) == 0 || job.Forced()) && mayRun)
      ensures old(Conserved(View())) ==> Conserved(View()) && |old(handled)| < |accepted| && job == accepted[|old(handled)|]
      ensures old(Counted(View())) && mayRun && !job.Forced() ==> (ran <==> Unlocks(Unhandled(View())) == 0 && inFlight == 0)
    {
      if Conserved(View()) {
        RunHeadKeeps(View(), mayRun);
        LaneParts(View());
        assert (Jobs(handled) + dumped + jobs)[|handled|] == dumped[0];
      }
      assert Unhandled(View())[1..] == Unhandled(RunHead(View(), mayRun));
      job := dumped[0];
      ran := (discardCnt == 0 || job.Forced()) && mayRun;
      dumped, handled := dumped[1..], handled + [Handled(job, ran)];
      if ran && job.kind == Unlock {
        PickupJobs();
      }
    }

    /** The second half of discardQueuedJobs: queue the unlock job or take the counter back. */
    method FinishDiscard(exiting: bool)
      requires inFlight > 0
      modifies this
      ensures View() == EndDiscard(old(View()), exiting)
    {
      inFlight := inFlight - 1;
      var ok := false;
      if !exiting {
        ok := TryEnqueue(UNLOCK);
      }
      if !ok {
        PickupJobs();
      }
    }
  }

  predicate Foreign(step: Step) {
    step.Send? || step.DiscardBegin? || step.DiscardEnd?
  }

  class BaseWorker {
    const normal: Queue
    const urgent: Queue
    var exitCode: int
    ghost var exited: bool
    ghost var phase: Phase
    ghost var drained: nat

    ghost function View(): Worker
      reads this, normal, urgent
    {
      Worker(normal.View(), urgent.View(), exitCode, exited, phase, drained)
    }

    ghost predicate Valid()
      reads this, normal, urgent
    {
      normal != urgent && Inv(View())
    }

    constructor (normalSize: nat, urgentSize: nat)
      ensures Valid() && Initial(View()) && fresh(normal) && fresh(urgent)
    {
      normal := new Queue(normalSize);
      urgent := new Queue(urgentSize);
      exitCode, exited, phase, drained := 0, false, Idle, 0;
    }

    predicate Possible(step: Step)
      requires Foreign(step)
      reads this, normal, urgent
      ensures Possible(step) == Enabled(View(), step)
    {
      match step
      case Send(job, _) => job.kind != Unlock
      case DiscardEnd(inUrgent) => (if inUrgent then urgent else normal).inFlight > 0
      case _ => true
    }

    /** A queue operation of any thread: sendAsync, or one half of discardQueuedJobs. */
    method Act(step: Step)
      requires Valid() && Foreign(step) && Enabled(View(), step)
      modifies normal, urgent
      ensures Valid() && View() == Next(old(View()), step)
      ensures step.Send? ==>
                var q := if step.toUrgent then urgent else normal;
                var room := exitCode == 0 && (q.maxSize == 0 || |old(q.jobs)| < q.maxSize);
                && q.jobs == (if room then old(q.jobs) + [step.job] else old(q.jobs))
                && (if step.toUrgent then normal else urgent).jobs == old((if step.toUrgent then normal else urgent).jobs)
    {
      hide Inv, EndDiscard, AdvancePass;
      NextKeeps(View(), step);
      match step
      case Send(job, toUrgent) =>
        if exitCode == 0 {
          var ok := (if toUrgent then urgent else normal).TryEnqueue(job);
        }
      case DiscardBegin(inUrgent) =>
        var q := if inUrgent then urgent else normal;
        q.discardCnt := q.discardCnt + 1;
        q.inFlight := q.inFlight + 1;
      case DiscardEnd(inUrgent) =>
        (if inUrgent then urgent else normal).FinishDiscard(exitCode != 0);
    }

    /** What other threads do before the worker's next step; steps not possible are skipped. */
    method Interfere(script: seq<Step>)
      requires Valid()
      modifies normal, urgent
      ensures Valid() && Kept(old(View()), View())
    {
      hide Inv;
      var i := 0;
      while i < |script|
        invariant 0 <= i <= |script| && Valid() && Kept(old(View()), View())
      {
        if Foreign(script[i]) && Possible(script[i]) {
          ForeignKeeps(View(), script[i]);
          KeptTransitive(old(View()), View(), Next(View(), script[i]));
          hide Next, Kept, Enabled;
          Act(script[i]);
        }
        i := i + 1;
      }
    }

    /** onHup and onError of the wakeup descriptor, between passes: doExit. */
    method OnError()
      requires Valid() && phase == Idle
      modifies this
      ensures Valid() && View() == Next(old(View()), WakeupFault) && exitCode == 1
    {
      NextKeeps(View(), WakeupFault);
      hide Inv;
      exitCode, exited := 1, true;
    }

    /** dumpJobs on both queues, at the start of processJobQueue. */
    method Begin()
      requires Valid() && phase == Idle
      modifies this, normal, urgent
      ensures Valid() && View() == Next(old(View()), StartPass)
    {
      NextKeeps(View(), StartPass);
      hide Inv;
      normal.DumpJobs();
      urgent.DumpJobs();
      phase, drained := FirstUrgent, |urgent.accepted|;
    }

    method RunOldestUrgent()
      requires Valid() && phase in {FirstUrgent, Draining, LastUrgent} && urgent.dumped != []
      modifies this, urgent
      ensures Valid() && View() == Next(old(View()), Advance)
    {
      NextKeeps(View(), Advance);
      hide Inv;
      var job, ran := urgent.RunOldest(true);
      Note(job, ran);
    }

    method RunOldestNormal()
      requires Valid() && phase == RunNormal && normal.dumped != []
      modifies this, normal
      ensures Valid() && View() == Next(old(View()), Advance)
    {
      NextKeeps(View(), Advance);
      hide Inv;
      var job, ran := normal.RunOldest(exitCode == 0);
      Note(job, ran);
      phase := BeforeDrain;
    }

    /** What running an exit job does. */
    method Note(job: Job, ran: bool)
      modifies this`exitCode, this`exited
      ensures exitCode == (if ran && job.kind.Exit? then job.kind.code else old(exitCode))
      ensures exited == (old(exited) || (ran && job.kind.Exit? && job.kind.code != 0))
    {
      if ran && job.kind.Exit? {
        exitCode := job.kind.code;
        exited := exited || exitCode != 0;
      }
    }

    /** dumpJobs on the urgent queue before a normal job, and after the last one. */
    method DumpUrgent()
      requires Valid() && ((phase == BeforeDrain && normal.dumped != []) || phase == LastDrain)
      modifies this, urgent
      ensures Valid() && View() == Next(old(View()), Advance)
    {
      NextKeeps(View(), Advance);
      hide Inv;
      urgent.DumpJobs();
      phase := if phase == BeforeDrain then Draining else LastUrgent;
      drained := |urgent.accepted|;
    }

    /** The control flow of the pass moves on. */
    ghost method MoveOn()
      requires Valid()
      requires (phase in {FirstUrgent, Draining, LastUrgent} && urgent.dumped == []) || (phase == BeforeDrain && normal.dumped == [])
      modifies this
      ensures Valid() && View() == Next(old(View()), Advance)
    {
      NextKeeps(View(), Advance);
      phase := Next(View(), Advance).phase;
    }

    /** The loop of processUrgentJobs. */
    method ProcessDumpedUrgent(env: nat -> seq<Step>, slot: nat) returns (slot': nat)
      requires Valid() && phase in {FirstUrgent, Draining, LastUrgent}
      modifies this, normal, urgent
      ensures Valid() && urgent.dumped == [] && phase == old(phase) && Progress(old(View()), View())
      ensures normal.dumped == old(normal.dumped)
    {
      hide Inv;
      slot' := slot;
      while urgent.dumped != []
        invariant Valid() && phase == old(phase) && Progress(old(View()), View())
        invariant normal.dumped == old(normal.dumped)
        decreases |urgent.dumped|
      {
        ghost var before := View();
        Interfere(env(slot'));
        slot' := slot' + 1;
        Urge(old(View()), before, View());
        RunOldestUrgent();
      }
    }

    /** processUrgentJobs: what the urgent queue held is handled when it returns. */
    method DrainUrgent(env: nat -> seq<Step>, slot: nat) returns (slot': nat)
      requires Valid() && ((phase == BeforeDrain && normal.dumped != []) || phase == LastDrain)
      modifies this, normal, urgent
      ensures Valid() && phase == (if old(phase) == BeforeDrain then RunNormal else Idle)
      ensures Progress(old(View()), View()) && normal.dumped == old(normal.dumped) && urgent.dumped == []
      ensures old(urgent.accepted) <= Jobs(urgent.handled)
    {
      hide Inv, Jobs, Progress;
      ghost var start := View();
      AdvanceProgress(View());
      DumpUrgent();
      ghost var drain := View();
      InvLane(drain, true);
      slot' := ProcessDumpedUrgent(env, slot);
      Drained(start, drain, View());
      AdvanceProgress(View());
      ProgressTransitive(start, View(), AdvancePass(View()));
      MoveOn();
    }

    /** One normal job, after the urgent jobs that arrived before it. */
    method OneRound(env: nat -> seq<Step>, slot: nat, ghost begun: Worker) returns (slot': nat)
      requires Valid() && phase == BeforeDrain && normal.dumped != [] && Progress(begun, View())
      modifies this, normal, urgent
      ensures Valid() && phase == BeforeDrain && Progress(begun, View()) && |normal.dumped| < |old(normal.dumped)|
    {
      hide Inv, Progress, Jobs;
      ghost var before := View();
      Interfere(env(slot));
      KeptProgress(before, View());
      ghost var later := View();
      slot' := DrainUrgent(env, slot + 1);
      ghost var drained := View();
      ProgressTransitive(begun, before, later);
      ProgressTransitive(begun, later, drained);
      Interfere(env(slot'));
      slot' := slot' + 1;
      KeptProgress(drained, View());
      ProgressTransitive(begun, drained, View());
      AdvanceProgress(View());
      ProgressTransitive(begun, View(), AdvancePass(View()));
      RunOldestNormal();
    }

    /** The urgent jobs that arrived after the last normal job. */
    method LastRound(env: nat -> seq<Step>, slot: nat, ghost begun: Worker) returns (slot': nat)
      requires Valid() && phase == BeforeDrain && normal.dumped == [] && Progress(begun, View())
      modifies this, normal, urgent
      ensures Valid() && phase == Idle && Progress(begun, View())
    {
      hide Inv, Progress, Jobs;
      AdvanceProgress(View());
      ProgressTransitive(begun, View(), AdvancePass(View()));
      MoveOn();
      ghost var before := View();
      Interfere(env(slot));
      KeptProgress(before, View());
      ProgressTransitive(begun, before, View());
      ghost var later := View();
      slot' := DrainUrgent(env, slot + 1);
      ProgressTransitive(begun, later, View());
    }

    /**
     processJobQueue, whatever other threads do meanwhile: the pass ends, and every job
     accepted before it has been handled, in order.
     */
    method ProcessJobQueue(env: nat -> seq<Step>)
      requires Valid() && phase == Idle
      modifies this, normal, urgent
      ensures Valid() && phase == Idle
      ensures old(normal.accepted) <= Jobs(normal.handled) && old(urgent.accepted) <= Jobs(urgent.handled)
    {
      hide Inv, Jobs, Progress, Conserved;
      Begin();
      ghost var begun := View();
      var slot := ProcessDumpedUrgent(env, 0);
      AdvanceProgress(View());
      ProgressTransitive(begun, View(), AdvancePass(View()));
      MoveOn();
      while normal.dumped != []
        invariant Valid() && phase == BeforeDrain && Progress(begun, View())
        decreases |normal.dumped|
      {
        slot := OneRound(env, slot, begun);
      }
      slot := LastRound(env, slot, begun);
      AllHandled(begun, View());
    }
  }

  /** What foreign steps leave alone. */
  ghost predicate Kept(w: Worker, w': Worker) {
    && w'.phase == w.phase && w'.drained == w.drained && w'.exitCode == w.exitCode && w'.exited == w.exited
    && w'.normal.batch == w.normal.batch && w'.normal.handled == w.normal.handled
    && w'.urgent.batch == w.urgent.batch && w'.urgent.handled == w.urgent.handled
    && w.normal.accepted <= w'.normal.accepted && w.urgent.accepted <= w'.urgent.accepted
  }

  /** No lane loses history, and at least as many of its jobs have left the queue. */
  ghost predicate Progress(w: Worker, w': Worker) {
    && LaneProgress(w.normal, w'.normal) && LaneProgress(w.urgent, w'.urgent)
  }

  ghost predicate LaneProgress(l: Lane, l': Lane) {
    l.accepted <= l'.accepted && |l.handled| + |l.batch| <= |l'.handled| + |l'.batch|
  }

  lemma ForeignKeeps(w: Worker, step: Step)
    requires Foreign(step) && Enabled(w, step)
    ensures Kept(w, Next(w, step))
  {
  }

  lemma KeptTransitive(a: Worker, b: Worker, c: Worker)
    requires Kept(a, b) && Kept(b, c)
    ensures Kept(a, c)
  {
    PrefixTransitive(a.normal.accepted, b.normal.accepted, c.normal.accepted);
    PrefixTransitive(a.urgent.accepted, b.urgent.accepted, c.urgent.accepted);
  }

  lemma ProgressTransitive(a: Worker, b: Worker, c: Worker)
    requires Progress(a, b) && Progress(b, c)
    ensures Progress(a, c)
  {
    PrefixTransitive(a.normal.accepted, b.normal.accepted, c.normal.accepted);
    PrefixTransitive(a.urgent.accepted, b.urgent.accepted, c.urgent.accepted);
  }

  /** One round of the loop over dumped urgent jobs. */
  lemma Urge(start: Worker, before: Worker, w: Worker)
    requires Progress(start, before) && Kept(before, w) && w.phase in {FirstUrgent, Draining, LastUrgent} && w.urgent.batch != []
    ensures Progress(start, AdvancePass(w))
    ensures var w' := AdvancePass(w);
            w'.phase == w.phase && w'.normal == w.normal && |w'.urgent.batch| < |w.urgent.batch|
  {
    ProgressTransitive(start, before, w);
    AdvanceProgress(w);
    ProgressTransitive(start, w, AdvancePass(w));
  }

  lemma AdvanceProgress(w: Worker)
    requires w.phase != Idle
    ensures Progress(w, AdvancePass(w))
  {
    AdvanceHistory(w, true);
    AdvanceHistory(w, false);
  }

  lemma KeptProgress(w: Worker, w': Worker)
    requires Kept(w, w')
    ensures Progress(w, w')
  {
  }

  lemma AllHandled(begun: Worker, w: Worker)
    requires Inv(begun) && begun.normal.queue == [] && begun.urgent.queue == [] && Inv(w) && w.phase == Idle && Progress(begun, w)
    ensures begun.normal.accepted <= Jobs(w.normal.handled) && begun.urgent.accepted <= Jobs(w.urgent.handled)
  {
    InvLane(begun, false);
    InvLane(begun, true);
    HandledPrefix(begun.normal, w, false);
    HandledPrefix(begun.urgent, w, true);
  }

  lemma Drained(start: Worker, drain: Worker, w: Worker)
    requires Progress(start, drain) && Progress(drain, w) && Inv(drain) && drain.urgent.queue == [] && Inv(w) && w.urgent.batch == []
    ensures Progress(start, w) && start.urgent.accepted <= Jobs(w.urgent.handled)
  {
    ProgressTransitive(start, drain, w);
    HandledPrefix(drain.urgent, w, true);
    PrefixTransitive(start.urgent.accepted, drain.urgent.accepted, Jobs(w.urgent.handled));
  }

  /** All jobs of `l` had left the queue, and now none is left dumped: all are handled. */
  lemma HandledPrefix(l: Lane, w: Worker, inUrgent: bool)
    requires Conserved(l) && l.queue == []
    requires Inv(w) && LaneProgress(l, LaneOf(w, inUrgent)) && LaneOf(w, inUrgent).batch == []
    ensures l.accepted <= Jobs(LaneOf(w, inUrgent).handled)
  {
    InvLane(w, inUrgent);
    LaneParts(l);
    LaneParts(LaneOf(w, inUrgent));
  }
}
