/** Workers and callers of the engine: jobs, reports and panics, in every interleaving. */
module Workers {
  datatype Job = Start(run: nat) | Shutdown

  /** What a worker tells a run: whether its dataflow drained, and how many captures it had flushed by then. */
  datatype Report = Report(worker: nat, ok: bool, flushed: nat)

  /** Where a worker is: in its loop; flushing a drained run's captures; or gone. A panic first faults the budget, then
      sets the flag, and then tells every run in flight. */
  datatype Phase =
    | Serving
    | Flushing(run: nat, flushed: nat)
    | Faulting(pending: seq<nat>)
    | Storing(pending: seq<nat>)
    | Telling(pending: seq<nat>)
    | Gone

  datatype Worker = Worker(jobs: seq<Job>, live: seq<nat>, phase: Phase)

  /** Where one call of `run` is. */
  datatype Coordinator =
    | Idle
    | Sending(next: nat)
    | Waiting(reported: nat, failed: bool)
    | Deciding(reported: nat, failed: bool)
    | Polling(reported: nat)
    | Done(ok: bool)

  /** `log[r]` is run r's channel: every report ever sent, of which its coordinator has read the first few. */
  datatype State = State(workers: seq<Worker>, runs: seq<Coordinator>, log: seq<seq<Report>>, poisoned: bool,
                         stopped: bool, dropped: bool)

  datatype Built = Succeeds | Refuses | Panics

  datatype Step =
    | Take(w: nat, built: Built)
    | Leave(w: nat)
    | Panic(w: nat)
    | Drained(w: nat, i: nat)
    | Flush(w: nat)
    | ReportDone(w: nat)
    | Fault(w: nat)
    | Store(w: nat)
    | Tell(w: nat)
    | Begin(r: nat)
    | Send(r: nat)
    | Receive(r: nat)
    | GiveUp(r: nat)
    | Enough(r: nat)
    | Decide(r: nat)
    | Poll(r: nat)
    | Stop
    | Drop

  /* ------------------------------------------------------------------ */
  /* Steps                                                                */
  /* ------------------------------------------------------------------ */

  predicate OfWorker(step: Step) {
    step.Take? || step.Leave? || step.Panic? || step.Drained? || step.Flush? || step.ReportDone? || step.Fault? || step.Store? || step.Tell?
  }

  predicate OfRun(step: Step) {
    step.Begin? || step.Send? || step.Receive? || step.GiveUp? || step.Enough? || step.Decide? || step.Poll?
  }

  predicate WorkerCan(s: State, captures: nat -> nat, step: Step, worker: Worker)
    requires OfWorker(step)
  {
    match step
    case Take(_, _) => worker.phase.Serving? && worker.jobs != [] && (worker.jobs[0].Start? ==> worker.jobs[0].run < |s.log|)
    case Leave(_) => worker.phase.Serving? && s.poisoned
    case Panic(_) => (worker.phase.Serving? && worker.live != []) || worker.phase.Flushing?
    case Drained(_, i) => worker.phase.Serving? && i < |worker.live|
    case Flush(_) => worker.phase.Flushing? && worker.phase.flushed < captures(worker.phase.run)
    case ReportDone(_) => worker.phase.Flushing? && worker.phase.flushed == captures(worker.phase.run) && worker.phase.run < |s.log|
    case Fault(_) => worker.phase.Faulting?
    case Store(_) => worker.phase.Storing?
    case Tell(_) => worker.phase.Telling? && (worker.phase.pending != [] ==> worker.phase.pending[0] < |s.log|)
  }

  predicate RunCan(s: State, step: Step, run: Coordinator)
    requires OfRun(step) && step.r < |s.log|
  {
    match step
    case Begin(_) => run.Idle? && !s.dropped
    case Send(_) => run.Sending?
    case Receive(r) => run.Waiting? && run.reported < |s.workers| && run.reported < |s.log[r]|
    case GiveUp(_) => run.Waiting? && run.reported < |s.workers| && s.poisoned
    case Enough(_) => run.Waiting? && run.reported >= |s.workers|
    case Decide(_) => run.Deciding?
    case Poll(_) => run.Polling?
  }

  predicate Enabled(s: State, captures: nat -> nat, step: Step)
    requires |s.log| == |s.runs|
  {
    if OfWorker(step) then step.w < |s.workers| && WorkerCan(s, captures, step, s.workers[step.w])
    else if OfRun(step) then step.r < |s.runs| && RunCan(s, step, s.runs[step.r])
    else if step.Drop? then !s.dropped && forall r :: 0 <= r < |s.runs| ==> s.runs[r].Idle? || s.runs[r].Done?
    else true
  }

  function Without(live: seq<nat>, run: nat): (r: seq<nat>)
    requires run in live
    ensures multiset(r) == multiset(live) - multiset{run}
  {
    assert live == [live[0]] + live[1..];
    if live[0] == run then live[1..] else [live[0]] + Without(live[1..], run)
  }

  /** Takes the next job: builds the run's dataflow, reports that it cannot be built, or panics. */
  function TakeJob(w: nat, built: Built, worker: Worker): (Worker, seq<(nat, Report)>)
    requires worker.phase.Serving? && worker.jobs != []
  {
    var rest := worker.(jobs := worker.jobs[1..]);
    match worker.jobs[0]
    case Shutdown => (Worker([], [], Gone), [])
    case Start(run) =>
      match built
      case Succeeds => (rest.(live := worker.live + [run]), [])
      case Refuses => (rest, [(run, Report(w, false, 0))])
      case Panics => (rest.(live := [], phase := Faulting(worker.live + [run])), [])
  }

  /** Reports that every capture is flushed, and forgets the run. */
  function FinishRun(w: nat, worker: Worker): (Worker, seq<(nat, Report)>)
    requires worker.phase.Flushing? && worker.phase.run in worker.live
  {
    (worker.(live := Without(worker.live, worker.phase.run), phase := Serving), [(worker.phase.run, Report(w, true, worker.phase.flushed))])
  }

  /** Tells the next run in flight of the panic; after the last one, leaves. */
  function TellNext(w: nat, worker: Worker): (Worker, seq<(nat, Report)>)
    requires worker.phase.Telling?
  {
    if worker.phase.pending == [] then (Worker([], [], Gone), [])
    else (worker.(phase := Telling(worker.phase.pending[1..])), [(worker.phase.pending[0], Report(w, false, 0))])
  }

  /** What becomes of the worker, and the report it sends, if any. */
  function WorkerDoes(s: State, captures: nat -> nat, step: Step, worker: Worker): (r: (Worker, seq<(nat, Report)>))
    requires OfWorker(step) && WorkerCan(s, captures, step, worker)
    requires worker.phase.Flushing? ==> worker.phase.run in worker.live
  {
    match step
    case Take(w, built) => TakeJob(w, built, worker)
    case Leave(_) => (Worker([], [], Gone), [])
    case Panic(_) => (worker.(live := [], phase := Faulting(worker.live)), [])
    case Drained(_, i) => (worker.(phase := Flushing(worker.live[i], 0)), [])
    case Flush(_) => (worker.(phase := Flushing(worker.phase.run, worker.phase.flushed + 1)), [])
    case ReportDone(w) => FinishRun(w, worker)
    case Fault(_) => (worker.(phase := Storing(worker.phase.pending)), [])
    case Store(_) => (worker.(phase := Telling(worker.phase.pending)), [])
    case Tell(w) => TellNext(w, worker)
  }

  function RunDoes(s: State, step: Step, run: Coordinator): Coordinator
    requires OfRun(step) && step.r < |s.log| && RunCan(s, step, run)
  {
    match step
    case Begin(_) => if s.poisoned then Done(false) else Sending(0)
    case Send(_) =>
      if run.next >= |s.workers| then Waiting(0, false)
      else if s.workers[run.next].phase.Gone? then Done(false)
      else Sending(run.next + 1)
    case Receive(r) => Waiting(run.reported + 1, run.failed || !s.log[r][run.reported].ok)
    case GiveUp(_) => Deciding(run.reported, run.failed)
    case Enough(_) => Deciding(run.reported, run.failed)
    case Decide(_) => if run.failed || s.poisoned then Done(false) else Polling(run.reported)
    case Poll(_) => Done(!s.stopped)
  }

  /** Flushing workers flush a live run. */
  predicate FlushesLive(s: State) {
    forall w :: 0 <= w < |s.workers| && s.workers[w].phase.Flushing? ==> s.workers[w].phase.run in s.workers[w].live
  }

  function Sent(log: seq<seq<Report>>, reports: seq<(nat, Report)>): (r: seq<seq<Report>>)
    ensures |r| == |log|
  {
    if reports == [] || reports[0].0 >= |log| then log else log[reports[0].0 := log[reports[0].0] + [reports[0].1]]
  }

  function AllTold(workers: seq<Worker>): (r: seq<Worker>)
    ensures |r| == |workers|
    ensures forall w :: 0 <= w < |r| ==> r[w] == if workers[w].phase.Gone? then workers[w] else workers[w].(jobs := workers[w].jobs + [Shutdown])
  {
    seq(|workers|, w requires 0 <= w < |workers| => if workers[w].phase.Gone? then workers[w] else workers[w].(jobs := workers[w].jobs + [Shutdown]))
  }

  function Next(s: State, captures: nat -> nat, step: Step): State
    requires |s.log| == |s.runs| && FlushesLive(s) && Enabled(s, captures, step)
  {
    if OfWorker(step) then AfterWorker(s, captures, step)
    else if OfRun(step) then AfterRun(s, step)
    else if step.Stop? then s.(stopped := true)
    else s.(workers := AllTold(s.workers), dropped := true)
  }

  function AfterWorker(s: State, captures: nat -> nat, step: Step): State
    requires OfWorker(step) && step.w < |s.workers| && WorkerCan(s, captures, step, s.workers[step.w]) && FlushesLive(s)
  {
    var did := WorkerDoes(s, captures, step, s.workers[step.w]);
    s.(workers := s.workers[step.w := did.0], log := Sent(s.log, did.1), stopped := s.stopped || step.Fault?, poisoned := s.poisoned || step.Store?)
  }

  function AfterRun(s: State, step: Step): State
    requires OfRun(step) && step.r < |s.runs| == |s.log| && RunCan(s, step, s.runs[step.r])
  {
    var run := s.runs[step.r];
    var workers := if step.Send? && run.next < |s.workers| && !s.workers[run.next].phase.Gone?
      then s.workers[run.next := s.workers[run.next].(jobs := s.workers[run.next].jobs + [Start(step.r)])] else s.workers;
    s.(workers := workers, runs := s.runs[step.r := RunDoes(s, step, run)])
  }

  /* ------------------------------------------------------------------ */
  /* What every step keeps                                                */
  /* ------------------------------------------------------------------ */

  function Pending(phase: Phase): seq<nat> {
    match phase
    case Faulting(pending) => pending
    case Storing(pending) => pending
    case Telling(pending) => pending
    case _ => []
  }

  /** The worker's reports to one run. */
  function ReportsBy(log: seq<Report>, w: nat): nat {
    if log == [] then 0 else ReportsBy(log[..|log| - 1], w) + if log[|log| - 1].worker == w then 1 else 0
  }

  /** What a worker holds of a run: a job, a dataflow, or a report still owed. */
  function Holds(worker: Worker, r: nat): nat {
    multiset(worker.jobs)[Start(r)] + multiset(worker.live)[r] + multiset(Pending(worker.phase))[r]
  }

  /** The run has not been sent to the worker yet. */
  predicate Unsent(run: Coordinator, w: nat) {
    run.Idle? || (run.Sending? && w >= run.next)
  }

  /** A worker holds a run or has reported to it, once in all, and only after it was sent. */
  ghost predicate OneToken(s: State, w: nat, r: nat)
    requires w < |s.workers| && r < |s.runs| == |s.log|
  {
    Token(s.workers[w], s.log[r], s.runs[r], w, r)
  }

  ghost predicate Token(worker: Worker, log: seq<Report>, run: Coordinator, w: nat, r: nat) {
    Holds(worker, r) + ReportsBy(log, w) <= if Unsent(run, w) then 0 else 1
  }

  ghost predicate Tokens(s: State)
    requires |s.runs| == |s.log|
  {
    forall w: nat, r: nat :: w < |s.workers| && r < |s.runs| ==> OneToken(s, w, r)
  }

  /** A good report was sent after every capture was flushed. */
  predicate ReportOk(report: Report, r: nat, peers: nat, captures: nat -> nat) {
    report.worker < peers && (report.ok ==> report.flushed == captures(r))
  }

  ghost predicate ReportsOk(s: State, captures: nat -> nat) {
    forall r: nat, i: nat :: r < |s.log| && i < |s.log[r]| ==> ReportOk(s.log[r][i], r, |s.workers|, captures)
  }

  /** The first `n` reports were all good. */
  predicate AllGood(log: seq<Report>, n: nat) {
    n <= |log| && forall i :: 0 <= i < n ==> log[i].ok
  }

  /** What a coordinator knows is what its channel says. */
  predicate Heard(s: State, run: Coordinator, log: seq<Report>) {
    match run
    case Waiting(reported, failed) => reported <= |log| && reported <= |s.workers| && failed == !AllGood(log, reported)
    case Deciding(reported, failed) =>
      reported <= |log| && reported <= |s.workers| && failed == !AllGood(log, reported) && (reported == |s.workers| || s.poisoned)
    case Polling(reported) => reported == |s.workers| && AllGood(log, reported)
    case Done(ok) => ok ==> AllGood(log, |s.workers|)
    case _ => true
  }

  ghost predicate AllHeard(s: State)
    requires |s.runs| == |s.log|
  {
    forall r: nat :: r < |s.runs| ==> Heard(s, s.runs[r], s.log[r])
  }

  /** A panic faults the budget before it sets the flag, and sets the flag before it tells anyone. */
  ghost predicate FaultsFirst(s: State) {
    && (s.poisoned ==> s.stopped)
    && forall w :: 0 <= w < |s.workers| ==>
      (s.workers[w].phase.Storing? ==> s.stopped) && (s.workers[w].phase.Telling? ==> s.poisoned)
  }

  ghost predicate Inv(s: State, captures: nat -> nat) {
    |s.runs| == |s.log| && FlushesLive(s) && FaultsFirst(s) && Tokens(s) && ReportsOk(s, captures) && AllHeard(s)
  }

  lemma {:induction false} ReportsByMore(log: seq<Report>, report: Report, w: nat)
    ensures ReportsBy(log + [report], w) == ReportsBy(log, w) + if report.worker == w then 1 else 0
  {
    assert (log + [report])[..|log|] == log;
  }

  function Reports(reports: seq<(nat, Report)>, r: nat): nat {
    if reports != [] && reports[0].0 == r then 1 else 0
  }

  lemma CountHead<T>(xs: seq<T>, x: T)
    requires xs != []
    ensures multiset(xs)[x] == multiset(xs[1..])[x] + if xs[0] == x then 1 else 0
  {
    assert xs == [xs[0]] + xs[1..];
  }

  lemma TakeMoves(w: nat, built: Built, worker: Worker, r: nat)
    requires worker.phase.Serving? && worker.jobs != []
    ensures var did := TakeJob(w, built, worker); Holds(did.0, r) + Reports(did.1, r) <= Holds(worker, r)
    ensures var did := TakeJob(w, built, worker); !did.0.phase.Gone? ==> Holds(did.0, r) + Reports(did.1, r) == Holds(worker, r)
  {
    CountHead(worker.jobs, Start(r));
    if worker.jobs[0].Start? {
      assert multiset(worker.live + [worker.jobs[0].run])[r] == multiset(worker.live)[r] + if worker.jobs[0].run == r then 1 else 0;
    }
  }

  lemma TellMoves(w: nat, worker: Worker, r: nat)
    requires worker.phase.Telling?
    ensures var did := TellNext(w, worker); Holds(did.0, r) + Reports(did.1, r) <= Holds(worker, r)
    ensures var did := TellNext(w, worker); !did.0.phase.Gone? ==> Holds(did.0, r) + Reports(did.1, r) == Holds(worker, r)
  {
    if worker.phase.pending != [] {
      CountHead(worker.phase.pending, r);
    }
  }

  /** A worker's step moves its token of a run along, or drops it: it never makes one, and drops one only by leaving. */
  lemma TokenMoves(s: State, captures: nat -> nat, step: Step, worker: Worker, r: nat)
    requires OfWorker(step) && WorkerCan(s, captures, step, worker)
    requires (worker.phase.Flushing? ==> worker.phase.run in worker.live)
    ensures var did := WorkerDoes(s, captures, step, worker); Holds(did.0, r) + Reports(did.1, r) <= Holds(worker, r)
    ensures var did := WorkerDoes(s, captures, step, worker);
      !did.0.phase.Gone? ==> Holds(did.0, r) + Reports(did.1, r) == Holds(worker, r)
  {
    match step {
      case Take(w, built) => TakeMoves(w, built, worker, r);
      case Tell(w) => TellMoves(w, worker, r);
      case ReportDone(w) => FinishMoves(w, worker, r);
      case _ =>
    }
  }

  lemma FinishMoves(w: nat, worker: Worker, r: nat)
    requires worker.phase.Flushing? && worker.phase.run in worker.live
    ensures var did := FinishRun(w, worker); Holds(did.0, r) + Reports(did.1, r) == Holds(worker, r)
  {
  }

  lemma SentTo(log: seq<seq<Report>>, reports: seq<(nat, Report)>, w: nat, r: nat)
    requires r < |log| && |reports| <= 1 && (reports != [] ==> reports[0].0 < |log|)
    ensures ReportsBy(Sent(log, reports)[r], w) ==
      ReportsBy(log[r], w) + if reports != [] && reports[0].1.worker == w then Reports(reports, r) else 0
  {
    if reports != [] && reports[0].0 == r {
      ReportsByMore(log[r], reports[0].1, w);
    }
  }

  /** What a worker's report says. */
  lemma ReportSays(s: State, captures: nat -> nat, step: Step, worker: Worker)
    requires OfWorker(step) && WorkerCan(s, captures, step, worker)
    requires (worker.phase.Flushing? ==> worker.phase.run in worker.live)
    ensures var sent := WorkerDoes(s, captures, step, worker).1;
      |sent| <= 1 && (sent != [] ==> sent[0].0 < |s.log| && sent[0].1.worker == step.w && (sent[0].1.ok ==> sent[0].1.flushed == captures(sent[0].0)))
  {
  }

  lemma WorkerKeepsTokens(s: State, captures: nat -> nat, step: Step)
    requires Inv(s, captures) && Enabled(s, captures, step) && OfWorker(step)
    ensures Tokens(AfterWorker(s, captures, step))
  {
    forall w: nat, r: nat | w < |s.workers| && r < |s.runs|
      ensures OneToken(AfterWorker(s, captures, step), w, r)
    {
      assert OneToken(s, w, r);
      WorkerKeepsToken(s, captures, step, w, r);
    }
  }

  lemma WorkerKeepsToken(s: State, captures: nat -> nat, step: Step, w: nat, r: nat)
    requires OfWorker(step) && step.w < |s.workers| && WorkerCan(s, captures, step, s.workers[step.w]) && FlushesLive(s)
    requires w < |s.workers| && r < |s.runs| == |s.log| && OneToken(s, w, r)
    ensures OneToken(AfterWorker(s, captures, step), w, r)
  {
    ReportSays(s, captures, step, s.workers[step.w]);
    TokenMoves(s, captures, step, s.workers[step.w], r);
    var did := WorkerDoes(s, captures, step, s.workers[step.w]);
    TokenAfter(s, did.0, did.1, step.w, w, r);
  }

  lemma TokenAfter(s: State, worker: Worker, sent: seq<(nat, Report)>, from: nat, w: nat, r: nat)
    requires from < |s.workers| && w < |s.workers| && r < |s.runs| == |s.log| && OneToken(s, w, r)
    requires |sent| <= 1 && (sent != [] ==> sent[0].0 < |s.log| && sent[0].1.worker == from)
    requires Holds(worker, r) + Reports(sent, r) <= Holds(s.workers[from], r)
    ensures Token(s.workers[from := worker][w], Sent(s.log, sent)[r], s.runs[r], w, r)
  {
    SentTo(s.log, sent, w, r);
  }

  /** Only sending a run makes a token of it, and only where there was none. */
  lemma RunKeepsTokens(s: State, captures: nat -> nat, step: Step)
    requires Inv(s, captures) && Enabled(s, captures, step) && OfRun(step)
    ensures Tokens(AfterRun(s, step))
  {
    forall w: nat, r: nat | w < |s.workers| && r < |s.runs|
      ensures OneToken(AfterRun(s, step), w, r)
    {
      assert OneToken(s, w, r);
      RunKeepsToken(s, step, w, r);
    }
  }

  lemma RunKeepsToken(s: State, step: Step, w: nat, r: nat)
    requires OfRun(step) && step.r < |s.runs| == |s.log| && RunCan(s, step, s.runs[step.r])
    requires w < |s.workers| && r < |s.runs| && OneToken(s, w, r)
    ensures OneToken(AfterRun(s, step), w, r)
  {
    if r == step.r {
      UnsentShrinks(s, step, s.runs[r], w);
    }
    HoldsSent(s, step, w, r);
  }

  lemma HoldsSent(s: State, step: Step, w: nat, r: nat)
    requires OfRun(step) && step.r < |s.runs| == |s.log| && RunCan(s, step, s.runs[step.r]) && w < |s.workers|
    ensures Holds(AfterRun(s, step).workers[w], r) == Holds(s.workers[w], r)
      + if step.Send? && r == step.r && w == s.runs[r].next && !s.workers[w].phase.Gone? then 1 else 0
  {
    if step.Send? && w == s.runs[step.r].next {
      JobMore(s.workers[w], step.r, r);
    }
  }

  lemma JobMore(worker: Worker, run: nat, r: nat)
    ensures Holds(worker.(jobs := worker.jobs + [Start(run)]), r) == Holds(worker, r) + if run == r then 1 else 0
  {
    assert multiset(worker.jobs + [Start(run)])[Start(r)] == multiset(worker.jobs)[Start(r)] + if run == r then 1 else 0;
  }

  lemma UnsentShrinks(s: State, step: Step, run: Coordinator, w: nat)
    requires OfRun(step) && step.r < |s.log| && RunCan(s, step, run) && w < |s.workers|
    ensures Unsent(RunDoes(s, step, run), w) ==> Unsent(run, w) && !(step.Send? && w == run.next)
  {
  }

  lemma OtherKeepsTokens(s: State, captures: nat -> nat, step: Step)
    requires Inv(s, captures) && Enabled(s, captures, step) && !OfRun(step) && !OfWorker(step)
    ensures Tokens(Next(s, captures, step))
  {
    forall w: nat, r: nat | w < |s.workers| && r < |s.runs|
      ensures OneToken(Next(s, captures, step), w, r)
    {
      assert OneToken(s, w, r);
    }
  }

  lemma KeepsReports(s: State, captures: nat -> nat, step: Step)
    requires Inv(s, captures) && Enabled(s, captures, step)
    ensures ReportsOk(Next(s, captures, step), captures)
  {
    if OfWorker(step) {
      ReportSays(s, captures, step, s.workers[step.w]);
      var s' := Next(s, captures, step);
      forall r: nat, i: nat | r < |s'.log| && i < |s'.log[r]|
        ensures ReportOk(s'.log[r][i], r, |s.workers|, captures)
      {
        if i < |s.log[r]| {
          assert ReportOk(s.log[r][i], r, |s.workers|, captures);
        }
      }
    }
  }

  /** Channels only grow. */
  lemma LogsGrow(s: State, captures: nat -> nat, step: Step, r: nat)
    requires |s.log| == |s.runs| && FlushesLive(s) && Enabled(s, captures, step) && r < |s.log|
    ensures s.log[r] <= Next(s, captures, step).log[r]
  {
  }

  lemma GoodStays(log: seq<Report>, more: seq<Report>, n: nat)
    requires log <= more && n <= |log|
    ensures AllGood(log, n) <==> AllGood(more, n)
  {
  }

  lemma HeardStays(s: State, captures: nat -> nat, step: Step, r: nat)
    requires Inv(s, captures) && Enabled(s, captures, step) && r < |s.runs|
    ensures Heard(Next(s, captures, step), s.runs[r], Next(s, captures, step).log[r])
  {
    LogsGrow(s, captures, step, r);
    assert Heard(s, s.runs[r], s.log[r]);
    match s.runs[r] {
      case Waiting(n, _) => GoodStays(s.log[r], Next(s, captures, step).log[r], n);
      case Deciding(n, _) => GoodStays(s.log[r], Next(s, captures, step).log[r], n);
      case Polling(n) => GoodStays(s.log[r], Next(s, captures, step).log[r], n);
      case Done(ok) =>
        if ok {
          GoodStays(s.log[r], Next(s, captures, step).log[r], |s.workers|);
        }
      case _ =>
    }
  }

  lemma KeepsHeard(s: State, captures: nat -> nat, step: Step)
    requires Inv(s, captures) && Enabled(s, captures, step)
    ensures AllHeard(Next(s, captures, step))
  {
    forall r: nat | r < |s.runs|
      ensures Heard(Next(s, captures, step), Next(s, captures, step).runs[r], Next(s, captures, step).log[r])
    {
      if OfRun(step) && step.r == r {
        RunHears(s, step);
        HeardOf(s, Next(s, captures, step), RunDoes(s, step, s.runs[r]), s.log[r]);
      } else {
        HeardStays(s, captures, step, r);
      }
    }
  }

  /** What a coordinator knows depends on the flag and the number of workers only. */
  lemma HeardOf(s: State, s': State, run: Coordinator, log: seq<Report>)
    requires Heard(s, run, log) && |s'.workers| == |s.workers| && (s.poisoned ==> s'.poisoned)
    ensures Heard(s', run, log)
  {
  }

  /** A coordinator's step keeps what it knows true. */
  lemma RunHears(s: State, step: Step)
    requires OfRun(step) && |s.log| == |s.runs| && step.r < |s.runs| && RunCan(s, step, s.runs[step.r])
    requires Heard(s, s.runs[step.r], s.log[step.r])
    ensures Heard(s, RunDoes(s, step, s.runs[step.r]), s.log[step.r])
  {
  }

  lemma KeepsFlushing(s: State, captures: nat -> nat, step: Step)
    requires Inv(s, captures) && Enabled(s, captures, step)
    ensures FlushesLive(Next(s, captures, step))
  {
  }

  lemma KeepsFaultsFirst(s: State, captures: nat -> nat, step: Step)
    requires Inv(s, captures) && Enabled(s, captures, step)
    ensures FaultsFirst(Next(s, captures, step))
  {
  }

  lemma StepKeeps(s: State, captures: nat -> nat, step: Step)
    requires Inv(s, captures) && Enabled(s, captures, step)
    ensures Inv(Next(s, captures, step), captures)
  {
    if OfWorker(step) {
      WorkerKeepsTokens(s, captures, step);
    } else if OfRun(step) {
      RunKeepsTokens(s, captures, step);
    } else {
      OtherKeepsTokens(s, captures, step);
    }
    KeepsReports(s, captures, step);
    KeepsHeard(s, captures, step);
    KeepsFlushing(s, captures, step);
    KeepsFaultsFirst(s, captures, step);
  }

  /* ------------------------------------------------------------------ */
  /* Runs                                                                 */
  /* ------------------------------------------------------------------ */

  /** Threads just started, and nothing run yet. */
  ghost predicate Initial(s: State) {
    && |s.log| == |s.runs| && !s.poisoned && !s.dropped
    && (forall w :: 0 <= w < |s.workers| ==> s.workers[w] == Worker([], [], Serving))
    && (forall r :: 0 <= r < |s.runs| ==> s.runs[r] == Idle && s.log[r] == [])
  }

  ghost predicate Follows(s: State, captures: nat -> nat, s': State) {
    |s.log| == |s.runs| && FlushesLive(s) && exists step :: Enabled(s, captures, step) && s' == Next(s, captures, step)
  }

  /** Any interleaving of builds, steps, flushes, panics, reports and calls. */
  ghost predicate Execution(trace: seq<State>, captures: nat -> nat) {
    trace != [] && Initial(trace[0]) && forall i :: 0 <= i < |trace| - 1 ==> Follows(trace[i], captures, trace[i + 1])
  }

  lemma InitialKeeps(s: State, captures: nat -> nat)
    requires Initial(s)
    ensures Inv(s, captures)
  {
  }

  lemma FollowsKeeps(s: State, captures: nat -> nat, s': State)
    requires Inv(s, captures) && Follows(s, captures, s')
    ensures Inv(s', captures) && |s'.workers| == |s.workers| && |s'.runs| == |s.runs|
  {
    var step :| Enabled(s, captures, step) && s' == Next(s, captures, step);
    StepKeeps(s, captures, step);
  }

  lemma StepOf(trace: seq<State>, captures: nat -> nat, i: nat)
    requires Execution(trace, captures) && 0 < i < |trace|
    ensures Follows(trace[i - 1], captures, trace[i])
  {
    assert trace[i - 1 + 1] == trace[i];
  }

  lemma {:induction false} ExecutionKeeps(trace: seq<State>, captures: nat -> nat, i: nat)
    requires Execution(trace, captures) && i < |trace|
    ensures Inv(trace[i], captures) && |trace[i].workers| == |trace[0].workers| && |trace[i].runs| == |trace[0].runs|
  {
    if i == 0 {
      InitialKeeps(trace[0], captures);
    } else {
      ExecutionKeeps(trace, captures, i - 1);
      StepOf(trace, captures, i);
      FollowsKeeps(trace[i - 1], captures, trace[i]);
    }
  }

  /** Reports by all workers. */
  function SumReports(log: seq<Report>, n: nat): nat {
    if n == 0 then 0 else SumReports(log, n - 1) + ReportsBy(log, n - 1)
  }

  lemma {:induction false} SumMore(log: seq<Report>, report: Report, n: nat)
    ensures SumReports(log + [report], n) == SumReports(log, n) + if report.worker < n then 1 else 0
  {
    if n > 0 {
      SumMore(log, report, n - 1);
      ReportsByMore(log, report, n - 1);
    }
  }

  lemma {:induction false} SumOfNothing(n: nat)
    ensures SumReports([], n) == 0
  {
    if n > 0 {
      SumOfNothing(n - 1);
    }
  }

  lemma {:induction false} SumIsLength(log: seq<Report>, peers: nat)
    requires forall i :: 0 <= i < |log| ==> log[i].worker < peers
    ensures SumReports(log, peers) == |log|
  {
    if log == [] {
      SumOfNothing(peers);
    } else {
      SumIsLength(log[..|log| - 1], peers);
      SumMore(log[..|log| - 1], log[|log| - 1], peers);
      assert log == log[..|log| - 1] + [log[|log| - 1]];
    }
  }

  lemma {:induction false} SumBounded(log: seq<Report>, n: nat)
    requires forall w: nat :: w < n ==> ReportsBy(log, w) <= 1
    ensures SumReports(log, n) <= n
    ensures SumReports(log, n) == n ==> forall w: nat :: w < n ==> ReportsBy(log, w) == 1
  {
    if n > 0 {
      SumBounded(log, n - 1);
    }
  }

  /** A run that returned Ok heard exactly one report from every worker, a good one, sent after all the run's captures
      were flushed there. */
  lemma OkMeansFlushed(trace: seq<State>, captures: nat -> nat, i: nat, r: nat)
    requires Execution(trace, captures) && i < |trace| && r < |trace[i].runs| && trace[i].runs[r] == Done(true)
    ensures var s := trace[i];
      && r < |s.log| && |s.log[r]| == |s.workers| && (forall w: nat :: w < |s.workers| ==> ReportsBy(s.log[r], w) == 1)
      && (forall k :: 0 <= k < |s.log[r]| ==> s.log[r][k].ok && s.log[r][k].flushed == captures(r))
  {
    var s := trace[i];
    ExecutionKeeps(trace, captures, i);
    assert Heard(s, s.runs[r], s.log[r]);
    forall w: nat | w < |s.workers|
      ensures ReportsBy(s.log[r], w) <= 1
    {
      assert OneToken(s, w, r);
    }
    assert forall k: nat :: k < |s.log[r]| ==> ReportOk(s.log[r][k], r, |s.workers|, captures);
    SumIsLength(s.log[r], |s.workers|);
    SumBounded(s.log[r], |s.workers|);
  }

  /** The worker is past its panic, or gone, and never told the run that it was done. */
  ghost predicate Lost(s: State, w: nat, r: nat) {
    && w < |s.workers| && r < |s.log| && !s.workers[w].phase.Serving? && !s.workers[w].phase.Flushing?
    && forall k :: 0 <= k < |s.log[r]| ==> !(s.log[r][k].worker == w && s.log[r][k].ok)
  }

  lemma LostStays(s: State, captures: nat -> nat, step: Step, w: nat, r: nat)
    requires |s.log| == |s.runs| && FlushesLive(s) && Enabled(s, captures, step) && Lost(s, w, r)
    ensures Lost(Next(s, captures, step), w, r)
  {
    if OfWorker(step) {
      LostWorker(s, captures, step, w, r);
    }
  }

  lemma LostWorker(s: State, captures: nat -> nat, step: Step, w: nat, r: nat)
    requires |s.log| == |s.runs| && FlushesLive(s) && Enabled(s, captures, step) && OfWorker(step) && Lost(s, w, r)
    ensures Lost(AfterWorker(s, captures, step), w, r)
  {
    var sent := WorkerDoes(s, captures, step, s.workers[step.w]).1;
    ReportSays(s, captures, step, s.workers[step.w]);
    assert step.w == w ==> sent == [] || !sent[0].1.ok;
  }

  lemma LostFollows(s: State, captures: nat -> nat, s': State, w: nat, r: nat)
    requires Follows(s, captures, s') && Lost(s, w, r)
    ensures Lost(s', w, r)
  {
    var step :| Enabled(s, captures, step) && s' == Next(s, captures, step);
    LostStays(s, captures, step, w, r);
  }

  lemma {:induction false} LostForever(trace: seq<State>, captures: nat -> nat, i: nat, j: nat, w: nat, r: nat)
    requires Execution(trace, captures) && i <= j < |trace| && Lost(trace[i], w, r)
    ensures Lost(trace[j], w, r)
  {
    if i < j {
      LostForever(trace, captures, i, j - 1, w, r);
      LostNext(trace, captures, j, w, r);
    }
  }

  lemma LostNext(trace: seq<State>, captures: nat -> nat, j: nat, w: nat, r: nat)
    requires Execution(trace, captures) && 0 < j < |trace| && Lost(trace[j - 1], w, r)
    ensures Lost(trace[j], w, r)
  {
    StepOf(trace, captures, j);
    LostFollows(trace[j - 1], captures, trace[j], w, r);
  }

  lemma {:induction false} NoReports(log: seq<Report>, w: nat)
    requires ReportsBy(log, w) == 0
    ensures forall k :: 0 <= k < |log| ==> log[k].worker != w
  {
    if log != [] {
      NoReports(log[..|log| - 1], w);
      assert forall k :: 0 <= k < |log| - 1 ==> log[..|log| - 1][k] == log[k];
    }
  }

  lemma {:induction false} SomeReport(log: seq<Report>, w: nat) returns (k: nat)
    requires ReportsBy(log, w) > 0
    ensures k < |log| && log[k].worker == w
  {
    k := |log| - 1;
    if log[k].worker != w {
      k := SomeReport(log[..|log| - 1], w);
    }
  }

  /** A run that a worker past its panic has told nothing good - whether it was in flight there, still queued there, or
      not yet sent there - never returns Ok. */
  lemma PanicNeverOk(trace: seq<State>, captures: nat -> nat, i: nat, j: nat, w: nat, r: nat)
    requires Execution(trace, captures) && i <= j < |trace| && Lost(trace[i], w, r)
    ensures r < |trace[j].runs| && trace[j].runs[r] != Done(true)
  {
    ExecutionKeeps(trace, captures, i);
    ExecutionKeeps(trace, captures, j);
    LostForever(trace, captures, i, j, w, r);
    if trace[j].runs[r] == Done(true) {
      OkMeansFlushed(trace, captures, j, r);
      var k := SomeReport(trace[j].log[r], w);
    }
  }

  /** A worker past its panic has told nothing good to a run it holds - as a job, a dataflow or a report owed - or has
      not been sent. */
  lemma HeldIsLost(s: State, captures: nat -> nat, w: nat, r: nat)
    requires Inv(s, captures) && w < |s.workers| && r < |s.runs|
    requires !s.workers[w].phase.Serving? && !s.workers[w].phase.Flushing?
    requires (Holds(s.workers[w], r) > 0 || Unsent(s.runs[r], w))
    ensures Lost(s, w, r)
  {
    assert OneToken(s, w, r);
    NoReports(s.log[r], w);
  }

  /* ------------------------------------------------------------------ */
  /* After a panic                                                        */
  /* ------------------------------------------------------------------ */

  /** How many steps a call may still take. */
  function StepsLeft(run: Coordinator, peers: nat): nat {
    match run
    case Idle => 2 * peers + 5
    case Sending(next) => peers + 4 + if next < peers then peers - next else 0
    case Waiting(reported, _) => 3 + if reported < peers then peers - reported else 0
    case Deciding(_, _) => 2
    case Polling(_) => 1
    case Done(_) => 0
  }

  /** A call's own steps use up its bound, in any state; no other step touches it. */
  lemma StepsRunOut(s: State, captures: nat -> nat, step: Step, r: nat)
    requires |s.log| == |s.runs| && FlushesLive(s) && Enabled(s, captures, step) && r < |s.runs|
    ensures var s' := Next(s, captures, step);
      if OfRun(step) && step.r == r then StepsLeft(s'.runs[r], |s.workers|) < StepsLeft(s.runs[r], |s.workers|) else s'.runs[r] == s.runs[r]
  {
  }

  /** The call is not over, and could still be. */
  predicate Unfinished(s: State, r: nat)
    requires r < |s.runs|
  {
    !s.runs[r].Done? && (s.runs[r].Idle? ==> !s.dropped)
  }

  /** The step a call can take without hearing from any worker, once the flag is set. */
  function OwnStep(run: Coordinator, peers: nat, r: nat): Step
    requires !run.Done?
  {
    match run
    case Idle => Begin(r)
    case Sending(_) => Send(r)
    case Waiting(reported, _) => if reported < peers then GiveUp(r) else Enough(r)
    case Deciding(_, _) => Decide(r)
    case Polling(_) => Poll(r)
  }

  /** With the flag set a call is never stuck, and it never turns out Ok. */
  lemma PoisonedMoves(s: State, captures: nat -> nat, r: nat)
    requires Inv(s, captures) && s.poisoned && r < |s.runs| && Unfinished(s, r)
    ensures Enabled(s, captures, OwnStep(s.runs[r], |s.workers|, r))
    ensures var s' := Next(s, captures, OwnStep(s.runs[r], |s.workers|, r)); Unfinished(s', r) || s'.runs[r] == Done(false)
  {
  }

  /** The steps lead from one state to another. */
  ghost predicate Leads(s: State, captures: nat -> nat, steps: seq<Step>, s': State)
    decreases |steps|
  {
    if steps == [] then s' == s
    else |s.log| == |s.runs| && FlushesLive(s) && Enabled(s, captures, steps[0]) && Leads(Next(s, captures, steps[0]), captures, steps[1..], s')
  }

  lemma LeadsFirst(s: State, captures: nat -> nat, step: Step, steps: seq<Step>, s': State)
    requires |s.log| == |s.runs| && FlushesLive(s) && Enabled(s, captures, step)
    requires Leads(Next(s, captures, step), captures, steps, s')
    ensures Leads(s, captures, [step] + steps, s')
  {
    assert ([step] + steps)[1..] == steps;
  }

  /** With the flag set, a call alone brings itself to an error. */
  lemma {:induction false} PoisonedEnds(s: State, captures: nat -> nat, r: nat) returns (steps: seq<Step>, s': State)
    requires Inv(s, captures) && s.poisoned && r < |s.runs| && Unfinished(s, r)
    ensures Leads(s, captures, steps, s') && r < |s'.runs| && s'.runs[r] == Done(false)
    ensures |steps| <= StepsLeft(s.runs[r], |s.workers|) && forall step :: step in steps ==> OfRun(step) && step.r == r
    decreases StepsLeft(s.runs[r], |s.workers|)
  {
    var step := OwnStep(s.runs[r], |s.workers|, r);
    PoisonedMoves(s, captures, r);
    StepsRunOut(s, captures, step, r);
    StepKeeps(s, captures, step);
    var next := Next(s, captures, step);
    var rest: seq<Step>;
    if next.runs[r].Done? {
      rest, s' := [], next;
    } else {
      rest, s' := PoisonedEnds(next, captures, r);
    }
    LeadsFirst(s, captures, step, rest, s');
    steps := [step] + rest;
  }

  predicate Panicking(phase: Phase) {
    phase.Faulting? || phase.Storing? || phase.Telling?
  }

  /** How many steps a panicking worker is from setting the flag. */
  function ToFlag(s: State, phase: Phase): nat {
    if s.poisoned then 0 else if phase.Faulting? then 2 else 1
  }

  lemma {:induction false} PanicEndsFrom(s: State, captures: nat -> nat, w: nat, r: nat)
    returns (steps: seq<Step>, s': State)
    requires Inv(s, captures) && w < |s.workers| && r < |s.runs| && Unfinished(s, r)
    requires (s.poisoned || Panicking(s.workers[w].phase))
    ensures Leads(s, captures, steps, s') && r < |s'.runs| && s'.runs[r] == Done(false)
    ensures |steps| <= ToFlag(s, s.workers[w].phase) + StepsLeft(s.runs[r], |s.workers|)
    ensures forall step :: step in steps ==> (OfRun(step) && step.r == r) || step == Fault(w) || step == Store(w)
    decreases ToFlag(s, s.workers[w].phase)
  {
    if s.poisoned {
      steps, s' := PoisonedEnds(s, captures, r);
    } else {
      var step := if s.workers[w].phase.Faulting? then Fault(w) else Store(w);
      StepKeeps(s, captures, step);
      var next := Next(s, captures, step);
      var rest;
      rest, s' := PanicEndsFrom(next, captures, w, r);
      LeadsFirst(s, captures, step, rest, s');
      steps := [step] + rest;
    }
  }

  /** From any state a run of the engine can reach with a panicked worker, every unfinished call can come to an error by
      its own steps, after at most two of that worker's: it waits for nobody else. */
  lemma PanicEnds(trace: seq<State>, captures: nat -> nat, i: nat, w: nat, r: nat) returns (steps: seq<Step>, s': State)
    requires Execution(trace, captures) && i < |trace| && w < |trace[i].workers| && r < |trace[i].runs|
    requires Unfinished(trace[i], r)
    requires trace[i].poisoned || Panicking(trace[i].workers[w].phase)
    ensures Leads(trace[i], captures, steps, s') && r < |s'.runs| && s'.runs[r] == Done(false)
    ensures |steps| <= 2 + StepsLeft(trace[i].runs[r], |trace[i].workers|)
    ensures forall step :: step in steps ==> (OfRun(step) && step.r == r) || step == Fault(w) || step == Store(w)
  {
    ExecutionKeeps(trace, captures, i);
    steps, s' := PanicEndsFrom(trace[i], captures, w, r);
  }

  /** Once the flag is set, no unfinished call ever returns Ok, in any execution. */
  lemma {:induction false} PoisonedNeverOk(trace: seq<State>, captures: nat -> nat, i: nat, j: nat, r: nat)
    requires Execution(trace, captures) && i <= j < |trace| && trace[i].poisoned && r < |trace[i].runs|
    requires !trace[i].runs[r].Done?
    ensures r < |trace[j].runs| && trace[j].poisoned && trace[j].runs[r] != Done(true)
  {
    ExecutionKeeps(trace, captures, i);
    ExecutionKeeps(trace, captures, j);
    if i < j {
      PoisonedNeverOk(trace, captures, i, j - 1, r);
      ExecutionKeeps(trace, captures, j - 1);
      StepOf(trace, captures, j);
      NotOkFollows(trace[j - 1], captures, trace[j], r);
    }
  }

  lemma NotOkFollows(s: State, captures: nat -> nat, s': State, r: nat)
    requires Inv(s, captures) && Follows(s, captures, s') && s.poisoned && r < |s.runs| && s.runs[r] != Done(true)
    ensures s'.poisoned && r < |s'.runs| && s'.runs[r] != Done(true)
  {
    var step :| Enabled(s, captures, step) && s' == Next(s, captures, step);
  }

  /* ------------------------------------------------------------------ */
  /* Why a run ends in an error                                           */
  /* ------------------------------------------------------------------ */

  /** Something went wrong: a panic's flag, a reason to stop, a worker that left, or a report that is not good. */
  ghost predicate Wrong(s: State, r: nat)
    requires r < |s.log|
  {
    s.poisoned || s.stopped || SomeGone(s) || exists k :: 0 <= k < |s.log[r]| && !s.log[r][k].ok
  }

  ghost predicate SomeGone(s: State) {
    exists w :: 0 <= w < |s.workers| && s.workers[w].phase.Gone?
  }

  /** A run that returned an error has a reason. */
  ghost predicate Reasoned(s: State, r: nat)
    requires r < |s.runs| == |s.log|
  {
    s.runs[r] == Done(false) ==> Wrong(s, r)
  }

  /** Whatever went wrong stays so. */
  lemma WrongStays(s: State, captures: nat -> nat, step: Step, r: nat)
    requires |s.log| == |s.runs| && FlushesLive(s) && Enabled(s, captures, step) && r < |s.runs| && Wrong(s, r)
    ensures Wrong(Next(s, captures, step), r)
  {
    var s' := Next(s, captures, step);
    if SomeGone(s) {
      var w :| 0 <= w < |s.workers| && s.workers[w].phase.Gone?;
      assert s'.workers[w].phase.Gone?;
    }
    LogsGrow(s, captures, step, r);
    if k :| 0 <= k < |s.log[r]| && !s.log[r][k].ok {
      assert s'.log[r][k] == s.log[r][k];
    }
  }

  /** A coordinator returns an error only for a reason. */
  lemma ErrorReasoned(s: State, step: Step)
    requires OfRun(step) && |s.log| == |s.runs| && step.r < |s.runs| && RunCan(s, step, s.runs[step.r])
    requires Heard(s, s.runs[step.r], s.log[step.r]) && RunDoes(s, step, s.runs[step.r]) == Done(false)
    ensures Wrong(s, step.r)
  {
    if step.Decide? && s.runs[step.r].failed {
      var n := s.runs[step.r].reported;
      var k :| 0 <= k < n && !s.log[step.r][k].ok;
    }
  }

  lemma ReasonKept(s: State, captures: nat -> nat, step: Step, r: nat)
    requires Inv(s, captures) && Enabled(s, captures, step) && r < |s.runs| && Reasoned(s, r)
    ensures r < |Next(s, captures, step).runs| == |Next(s, captures, step).log| && Reasoned(Next(s, captures, step), r)
  {
    assert Heard(s, s.runs[r], s.log[r]);
    if Wrong(s, r) {
      WrongStays(s, captures, step, r);
    } else if OfRun(step) && step.r == r && RunDoes(s, step, s.runs[r]) == Done(false) {
      ErrorReasoned(s, step);
    }
  }

  lemma ReasonFollows(s: State, captures: nat -> nat, s': State, r: nat)
    requires Inv(s, captures) && Follows(s, captures, s') && r < |s.runs| && Reasoned(s, r)
    ensures r < |s'.runs| == |s'.log| && Reasoned(s', r)
  {
    var step :| Enabled(s, captures, step) && s' == Next(s, captures, step);
    ReasonKept(s, captures, step, r);
  }

  /** In every execution, a run that returned an error was poisoned, stopped, missed a worker, or got a report that is
      not good. */
  lemma {:induction false} ErrorHasReason(trace: seq<State>, captures: nat -> nat, i: nat, r: nat)
    requires Execution(trace, captures) && i < |trace| && r < |trace[0].runs|
    ensures r < |trace[i].runs| == |trace[i].log| && Reasoned(trace[i], r)
  {
    ExecutionKeeps(trace, captures, i);
    if i > 0 {
      ErrorHasReason(trace, captures, i - 1, r);
      ExecutionKeeps(trace, captures, i - 1);
      StepOf(trace, captures, i);
      ReasonFollows(trace[i - 1], captures, trace[i], r);
    }
  }

  /* ------------------------------------------------------------------ */
  /* A run nothing goes wrong with                                        */
  /* ------------------------------------------------------------------ */

  /** The call has begun, and is not over. */
  predicate Underway(run: Coordinator) {
    !run.Idle? && !run.Done?
  }

  /** Jobs, dataflows and captures are of runs there are, and only a dropped set is told to shut down. */
  ghost predicate Known(worker: Worker, runs: nat, captures: nat -> nat, dropped: bool) {
    && (forall k :: 0 <= k < |worker.jobs| ==> JobKnown(worker.jobs[k], runs, dropped))
    && (forall k :: 0 <= k < |worker.live| ==> worker.live[k] < runs)
    && (worker.phase.Flushing? ==> worker.phase.run < runs && worker.phase.flushed <= captures(worker.phase.run))
  }

  predicate JobKnown(job: Job, runs: nat, dropped: bool) {
    match job
    case Start(run) => run < runs
    case Shutdown => dropped
  }

  /** A worker that is there holds every run it was sent, or has reported to it. */
  ghost predicate Held(worker: Worker, log: seq<Report>, run: Coordinator, w: nat, r: nat) {
    !worker.phase.Gone? && Underway(run) && !Unsent(run, w) ==> Holds(worker, r) + ReportsBy(log, w) >= 1
  }

  ghost predicate AllHeld(s: State)
    requires |s.runs| == |s.log|
  {
    forall w: nat, r: nat :: w < |s.workers| && r < |s.runs| ==> HeldAt(s, w, r)
  }

  ghost predicate HeldAt(s: State, w: nat, r: nat)
    requires w < |s.workers| && r < |s.runs| == |s.log|
  {
    Held(s.workers[w], s.log[r], s.runs[r], w, r)
  }

  ghost predicate AllKnown(s: State, captures: nat -> nat) {
    forall w :: 0 <= w < |s.workers| ==> Known(s.workers[w], |s.log|, captures, s.dropped)
  }

  ghost predicate Full(s: State, captures: nat -> nat) {
    Inv(s, captures) && AllHeld(s) && AllKnown(s, captures)
  }

  lemma KnownKept(s: State, captures: nat -> nat, step: Step, w: nat)
    requires |s.log| == |s.runs| && FlushesLive(s) && Enabled(s, captures, step) && w < |s.workers|
    requires Known(s.workers[w], |s.log|, captures, s.dropped)
    ensures w < |Next(s, captures, step).workers|
    ensures Known(Next(s, captures, step).workers[w], |s.log|, captures, Next(s, captures, step).dropped)
  {
    if OfWorker(step) {
      AfterWorkerKnown(s, captures, step, w);
    } else if OfRun(step) {
      RunKnown(s, captures, step, w);
    } else {
      OtherKnown(s, captures, step, w);
    }
  }

  lemma AfterWorkerKnown(s: State, captures: nat -> nat, step: Step, w: nat)
    requires OfWorker(step) && step.w < |s.workers| && WorkerCan(s, captures, step, s.workers[step.w]) && FlushesLive(s)
    requires w < |s.workers| && Known(s.workers[w], |s.log|, captures, s.dropped)
    ensures Known(AfterWorker(s, captures, step).workers[w], |s.log|, captures, s.dropped)
  {
    if step.w == w {
      WorkerKnown(s, captures, step, s.workers[w]);
    }
  }

  lemma RunKnown(s: State, captures: nat -> nat, step: Step, w: nat)
    requires OfRun(step) && step.r < |s.runs| == |s.log| && RunCan(s, step, s.runs[step.r])
    requires w < |s.workers| && Known(s.workers[w], |s.log|, captures, s.dropped)
    ensures Known(AfterRun(s, step).workers[w], |s.log|, captures, s.dropped)
  {
  }

  lemma OtherKnown(s: State, captures: nat -> nat, step: Step, w: nat)
    requires |s.log| == |s.runs| && FlushesLive(s) && Enabled(s, captures, step) && !OfRun(step) && !OfWorker(step)
    requires w < |s.workers| && Known(s.workers[w], |s.log|, captures, s.dropped)
    ensures Known(Next(s, captures, step).workers[w], |s.log|, captures, Next(s, captures, step).dropped)
  {
  }

  lemma WorkerKnown(s: State, captures: nat -> nat, step: Step, worker: Worker)
    requires OfWorker(step) && WorkerCan(s, captures, step, worker) && Known(worker, |s.log|, captures, s.dropped)
    requires worker.phase.Flushing? ==> worker.phase.run in worker.live
    ensures Known(WorkerDoes(s, captures, step, worker).0, |s.log|, captures, s.dropped)
  {
    if step.ReportDone? {
      WithoutInside(worker.live, worker.phase.run);
    }
  }

  lemma WithoutInside(live: seq<nat>, run: nat)
    requires run in live
    ensures forall k :: 0 <= k < |Without(live, run)| ==> Without(live, run)[k] in live
  {
    forall k | 0 <= k < |Without(live, run)|
      ensures Without(live, run)[k] in live
    {
      assert Without(live, run)[k] in multiset(Without(live, run));
    }
  }

  lemma HeldKept(s: State, captures: nat -> nat, step: Step, w: nat, r: nat)
    requires Full(s, captures) && Enabled(s, captures, step) && w < |s.workers| && r < |s.runs|
    ensures var s' := Next(s, captures, step);
      w < |s'.workers| && r < |s'.runs| == |s'.log| && HeldAt(s', w, r)
  {
    assert HeldAt(s, w, r);
    if OfWorker(step) {
      WorkerKeepsHeld(s, captures, step, w, r);
    } else if OfRun(step) {
      RunKeepsHeld(s, step, w, r);
    } else if step.Drop? && !s.workers[w].phase.Gone? {
      assert multiset(s.workers[w].jobs + [Shutdown])[Start(r)] == multiset(s.workers[w].jobs)[Start(r)];
    }
  }

  lemma WorkerKeepsHeld(s: State, captures: nat -> nat, step: Step, w: nat, r: nat)
    requires OfWorker(step) && step.w < |s.workers| && WorkerCan(s, captures, step, s.workers[step.w]) && FlushesLive(s)
    requires w < |s.workers| && r < |s.runs| == |s.log| && HeldAt(s, w, r)
    ensures HeldAt(AfterWorker(s, captures, step), w, r)
  {
    ReportSays(s, captures, step, s.workers[step.w]);
    TokenMoves(s, captures, step, s.workers[step.w], r);
    var did := WorkerDoes(s, captures, step, s.workers[step.w]);
    GoneStays(s, captures, step, s.workers[step.w]);
    HeldAfter(s, did.0, did.1, step.w, w, r);
  }

  lemma GoneStays(s: State, captures: nat -> nat, step: Step, worker: Worker)
    requires OfWorker(step) && WorkerCan(s, captures, step, worker)
    requires worker.phase.Flushing? ==> worker.phase.run in worker.live
    ensures !worker.phase.Gone?
  {
  }

  lemma HeldAfter(s: State, worker: Worker, sent: seq<(nat, Report)>, from: nat, w: nat, r: nat)
    requires from < |s.workers| && w < |s.workers| && r < |s.runs| == |s.log| && HeldAt(s, w, r)
    requires |sent| <= 1 && (sent != [] ==> sent[0].0 < |s.log| && sent[0].1.worker == from)
    requires !s.workers[from].phase.Gone?
    requires !worker.phase.Gone? ==> Holds(worker, r) + Reports(sent, r) == Holds(s.workers[from], r)
    ensures Held(s.workers[from := worker][w], Sent(s.log, sent)[r], s.runs[r], w, r)
  {
    SentTo(s.log, sent, w, r);
  }

  lemma RunKeepsHeld(s: State, step: Step, w: nat, r: nat)
    requires OfRun(step) && step.r < |s.runs| == |s.log| && RunCan(s, step, s.runs[step.r])
    requires w < |s.workers| && r < |s.runs| && HeldAt(s, w, r)
    ensures HeldAt(AfterRun(s, step), w, r)
  {
    HoldsSent(s, step, w, r);
  }

  lemma FullKept(s: State, captures: nat -> nat, step: Step)
    requires Full(s, captures) && Enabled(s, captures, step)
    ensures Full(Next(s, captures, step), captures) && |Next(s, captures, step).workers| == |s.workers|
    ensures |Next(s, captures, step).runs| == |s.runs|
  {
    StepKeeps(s, captures, step);
    var s' := Next(s, captures, step);
    forall w: nat | w < |s'.workers|
      ensures Known(s'.workers[w], |s'.log|, captures, s'.dropped)
    {
      assert Known(s.workers[w], |s.log|, captures, s.dropped);
      KnownKept(s, captures, step, w);
    }
    forall w: nat, r: nat | w < |s'.workers| && r < |s'.runs|
      ensures HeldAt(s', w, r)
    {
      HeldKept(s, captures, step, w, r);
    }
  }

  lemma FullFollows(s: State, captures: nat -> nat, s': State)
    requires Full(s, captures) && Follows(s, captures, s')
    ensures Full(s', captures)
  {
    var step :| Enabled(s, captures, step) && s' == Next(s, captures, step);
    FullKept(s, captures, step);
  }

  lemma {:induction false} ExecutionFull(trace: seq<State>, captures: nat -> nat, i: nat)
    requires Execution(trace, captures) && i < |trace|
    ensures Full(trace[i], captures)
  {
    if i == 0 {
      InitialKeeps(trace[0], captures);
    } else {
      ExecutionFull(trace, captures, i - 1);
      StepOf(trace, captures, i);
      FullFollows(trace[i - 1], captures, trace[i]);
    }
  }

  /** Nothing has gone wrong, and nothing is going wrong: every worker serves or flushes. */
  ghost predicate Healthy(s: State, r: nat)
    requires r < |s.log|
  {
    && !s.poisoned && !s.stopped && !s.dropped && (forall k :: 0 <= k < |s.log[r]| ==> s.log[r][k].ok)
    && forall w :: 0 <= w < |s.workers| ==> s.workers[w].phase.Serving? || s.workers[w].phase.Flushing?
  }

  /** A worker's good steps: it builds, drains, flushes and reports. */
  predicate GoodWork(step: Step) {
    (step.Take? && step.built.Succeeds?) || step.Drained? || step.Flush? || step.ReportDone?
  }

  /** Good work keeps everything well, and what each worker has reported. */
  lemma WorkKeeps(s: State, captures: nat -> nat, step: Step, r: nat)
    requires Full(s, captures) && r < |s.runs| && Healthy(s, r) && GoodWork(step) && Enabled(s, captures, step)
    ensures var s' := Next(s, captures, step);
      && Full(s', captures) && r < |s'.runs| && Healthy(s', r) && s'.runs == s.runs && |s'.workers| == |s.workers|
      && forall v: nat :: ReportsBy(s.log[r], v) <= ReportsBy(s'.log[r], v)
  {
    FullKept(s, captures, step);
    assert Known(s.workers[step.w], |s.log|, captures, s.dropped);
    var s' := Next(s, captures, step);
    ReportSays(s, captures, step, s.workers[step.w]);
    forall v: nat
      ensures ReportsBy(s.log[r], v) <= ReportsBy(s'.log[r], v)
    {
      SentTo(s.log, WorkerDoes(s, captures, step, s.workers[step.w]).1, v, r);
    }
  }

  /** The steps lead from one state to a second, and others from there to a third. */
  lemma {:induction false} LeadsThen(s: State, captures: nat -> nat, xs: seq<Step>, m: State, ys: seq<Step>, s': State)
    requires Leads(s, captures, xs, m) && Leads(m, captures, ys, s')
    ensures Leads(s, captures, xs + ys, s')
    decreases |xs|
  {
    if xs == [] {
      assert xs + ys == ys;
    } else {
      LeadsThen(Next(s, captures, xs[0]), captures, xs[1..], m, ys, s');
      LeadsFirst(s, captures, xs[0], xs[1..] + ys, s');
      assert xs + ys == [xs[0]] + (xs[1..] + ys);
    }
  }

  /** What good work leads to. */
  ghost predicate Worked(s: State, captures: nat -> nat, r: nat, steps: seq<Step>, s': State)
    requires r < |s.log|
  {
    && Leads(s, captures, steps, s') && (forall step :: step in steps ==> GoodWork(step))
    && Full(s', captures) && r < |s'.runs| == |s'.log| && Healthy(s', r) && s'.runs == s.runs && |s'.workers| == |s.workers|
    && forall v: nat :: ReportsBy(s.log[r], v) <= ReportsBy(s'.log[r], v)
  }

  lemma WorkedFirst(s: State, captures: nat -> nat, r: nat, step: Step, rest: seq<Step>, s': State)
    requires Full(s, captures) && r < |s.runs| && Healthy(s, r) && GoodWork(step) && Enabled(s, captures, step)
    requires r < |Next(s, captures, step).log| && Worked(Next(s, captures, step), captures, r, rest, s')
    ensures Worked(s, captures, r, [step] + rest, s')
  {
    WorkKeeps(s, captures, step, r);
    LeadsFirst(s, captures, step, rest, s');
  }

  lemma WorkedThen(s: State, captures: nat -> nat, r: nat, xs: seq<Step>, m: State, ys: seq<Step>, s': State)
    requires r < |s.log| && Worked(s, captures, r, xs, m) && Worked(m, captures, r, ys, s')
    ensures Worked(s, captures, r, xs + ys, s')
  {
    LeadsThen(s, captures, xs, m, ys, s');
  }

  /** A worker's next step towards reporting to a run it was sent. */
  function NextWork(worker: Worker, captures: nat -> nat, w: nat, r: nat): Step {
    match worker.phase
    case Flushing(run, flushed) => if flushed < captures(run) then Flush(w) else ReportDone(w)
    case _ => if r in worker.live then Drained(w, PositionOf(worker.live, r)) else Take(w, Succeeds)
  }

  function PositionOf(live: seq<nat>, r: nat): (i: nat)
    requires r in live
    ensures i < |live| && live[i] == r
  {
    if live[0] == r then 0 else 1 + PositionOf(live[1..], r)
  }

  lemma NextWorkEnabled(s: State, captures: nat -> nat, w: nat, r: nat)
    requires Full(s, captures) && r < |s.runs| && Healthy(s, r) && w < |s.workers|
    requires Underway(s.runs[r]) && !Unsent(s.runs[r], w) && ReportsBy(s.log[r], w) == 0
    ensures GoodWork(NextWork(s.workers[w], captures, w, r))
    ensures Enabled(s, captures, NextWork(s.workers[w], captures, w, r))
  {
    var worker := s.workers[w];
    assert HeldAt(s, w, r) && Known(worker, |s.log|, captures, s.dropped);
    if worker.phase.Serving? && r !in worker.live {
      assert multiset(worker.jobs)[Start(r)] > 0;
      assert Start(r) in worker.jobs;
      assert JobKnown(worker.jobs[0], |s.log|, s.dropped);
    }
  }

  /** How far a worker is from reporting. */
  function Jobs(worker: Worker): nat {
    |worker.jobs|
  }

  function Flushes(worker: Worker, captures: nat -> nat): nat {
    match worker.phase
    case Flushing(run, flushed) => if flushed < captures(run) then captures(run) - flushed else 0
    case _ => 0
  }

  lemma WorkNears(s: State, captures: nat -> nat, w: nat, r: nat)
    requires Full(s, captures) && r < |s.runs| && Healthy(s, r) && w < |s.workers|
    requires Underway(s.runs[r]) && !Unsent(s.runs[r], w) && ReportsBy(s.log[r], w) == 0
    requires Enabled(s, captures, NextWork(s.workers[w], captures, w, r))
    ensures var s' := Next(s, captures, NextWork(s.workers[w], captures, w, r));
      var a, b := s.workers[w], s'.workers[w];
      || |b.jobs| < |a.jobs|
      || (|b.jobs| == |a.jobs| && |b.live| < |a.live|)
      || (b.jobs == a.jobs && b.live == a.live && a.phase.Serving? && b.phase.Flushing?)
      || (b.jobs == a.jobs && b.live == a.live && a.phase.Flushing? && b.phase.Flushing? && Flushes(b, captures) < Flushes(a, captures))
  {
    var a := s.workers[w];
    if a.phase.Flushing? && !(a.phase.flushed < captures(a.phase.run)) {
      assert |multiset(Without(a.live, a.phase.run))| == |multiset(a.live)| - 1;
    }
  }

  /** A worker that was sent a run, and works on, reports to it. */
  lemma {:induction false} WorkerReports(s: State, captures: nat -> nat, w: nat, r: nat)
    returns (steps: seq<Step>, s': State)
    requires Full(s, captures) && r < |s.runs| && Healthy(s, r) && w < |s.workers|
    requires Underway(s.runs[r]) && !Unsent(s.runs[r], w)
    ensures Worked(s, captures, r, steps, s') && ReportsBy(s'.log[r], w) >= 1
    decreases |s.workers[w].jobs|, |s.workers[w].live|, if s.workers[w].phase.Serving? then 1 else 0, Flushes(s.workers[w], captures)
  {
    if ReportsBy(s.log[r], w) >= 1 {
      return [], s;
    }
    var step := NextWork(s.workers[w], captures, w, r);
    NextWorkEnabled(s, captures, w, r);
    WorkKeeps(s, captures, step, r);
    WorkNears(s, captures, w, r);
    var rest;
    rest, s' := WorkerReports(Next(s, captures, step), captures, w, r);
    WorkedFirst(s, captures, r, step, rest, s');
    steps := [step] + rest;
  }

  /** The first `n` workers report. */
  lemma {:induction false} WorkersReport(s: State, captures: nat -> nat, n: nat, r: nat)
    returns (steps: seq<Step>, s': State)
    requires Full(s, captures) && r < |s.runs| && Healthy(s, r) && n <= |s.workers| && s.runs[r].Waiting?
    ensures Worked(s, captures, r, steps, s') && forall w: nat :: w < n ==> ReportsBy(s'.log[r], w) >= 1
  {
    if n == 0 {
      return [], s;
    }
    var xs, m := WorkersReport(s, captures, n - 1, r);
    var ys;
    ys, s' := WorkerReports(m, captures, n - 1, r);
    WorkedThen(s, captures, r, xs, m, ys, s');
    steps := xs + ys;
  }

  lemma {:induction false} SumAtLeast(log: seq<Report>, n: nat)
    requires forall w: nat :: w < n ==> ReportsBy(log, w) >= 1
    ensures SumReports(log, n) >= n
  {
    if n > 0 {
      SumAtLeast(log, n - 1);
    }
  }

  lemma ReportsSuffice(s: State, captures: nat -> nat, r: nat)
    requires Full(s, captures) && r < |s.runs| && forall w: nat :: w < |s.workers| ==> ReportsBy(s.log[r], w) >= 1
    ensures |s.log[r]| >= |s.workers|
  {
    forall i: nat | i < |s.log[r]|
      ensures s.log[r][i].worker < |s.workers|
    {
      assert ReportOk(s.log[r][i], r, |s.workers|, captures);
    }
    SumIsLength(s.log[r], |s.workers|);
    SumAtLeast(s.log[r], |s.workers|);
  }

  /** The step a call takes while nothing goes wrong. */
  function CalmStep(run: Coordinator, peers: nat, r: nat): Step
    requires !run.Done?
  {
    match run
    case Waiting(reported, _) => if reported < peers then Receive(r) else Enough(r)
    case _ => OwnStep(run, peers, r)
  }

  /** A call's own step keeps everything well, sends nothing to its channel, and does not end it badly. */
  lemma CalmMoves(s: State, captures: nat -> nat, r: nat)
    requires Full(s, captures) && r < |s.runs| && Healthy(s, r) && !s.runs[r].Done?
    requires s.runs[r].Waiting? ==> |s.log[r]| >= |s.workers|
    ensures Enabled(s, captures, CalmStep(s.runs[r], |s.workers|, r))
    ensures var s' := Next(s, captures, CalmStep(s.runs[r], |s.workers|, r));
      && Full(s', captures) && r < |s'.runs| && Healthy(s', r) && s'.log == s.log && |s'.workers| == |s.workers|
      && s'.runs[r] != Done(false) && (s'.runs[r].Waiting? ==> s.runs[r].Waiting? || s.runs[r].Sending?)
  {
    assert Heard(s, s.runs[r], s.log[r]);
    FullKept(s, captures, CalmStep(s.runs[r], |s.workers|, r));
  }

  /** A call that begins or sends comes to wait. */
  lemma {:induction false} SendsToAll(s: State, captures: nat -> nat, r: nat) returns (steps: seq<Step>, s': State)
    requires Full(s, captures) && r < |s.runs| && Healthy(s, r) && (s.runs[r].Idle? || s.runs[r].Sending?)
    ensures Leads(s, captures, steps, s') && (forall step :: step in steps ==> OfRun(step) && step.r == r)
    ensures Full(s', captures) && r < |s'.runs| == |s'.log| && Healthy(s', r) && s'.runs[r].Waiting?
    decreases StepsLeft(s.runs[r], |s.workers|)
  {
    var step := CalmStep(s.runs[r], |s.workers|, r);
    CalmMoves(s, captures, r);
    StepsRunOut(s, captures, step, r);
    var next := Next(s, captures, step);
    var rest: seq<Step>;
    if next.runs[r].Waiting? {
      rest, s' := [], next;
    } else {
      rest, s' := SendsToAll(next, captures, r);
    }
    LeadsFirst(s, captures, step, rest, s');
    steps := [step] + rest;
  }

  /** A call that all workers reported to, all well, returns Ok. */
  lemma {:induction false} HearsAll(s: State, captures: nat -> nat, r: nat) returns (steps: seq<Step>, s': State)
    requires Full(s, captures) && r < |s.runs| && Healthy(s, r)
    requires s.runs[r].Waiting? || s.runs[r].Deciding? || s.runs[r].Polling?
    requires s.runs[r].Waiting? ==> |s.log[r]| >= |s.workers|
    ensures Leads(s, captures, steps, s') && (forall step :: step in steps ==> OfRun(step) && step.r == r)
    ensures r < |s'.runs| && s'.runs[r] == Done(true)
    decreases StepsLeft(s.runs[r], |s.workers|)
  {
    var step := CalmStep(s.runs[r], |s.workers|, r);
    CalmMoves(s, captures, r);
    StepsRunOut(s, captures, step, r);
    var next := Next(s, captures, step);
    var rest: seq<Step>;
    if next.runs[r].Done? {
      rest, s' := [], next;
    } else {
      rest, s' := HearsAll(next, captures, r);
    }
    LeadsFirst(s, captures, step, rest, s');
    steps := [step] + rest;
  }

  /** A step of the call, or a worker's good work. */
  predicate Calm(step: Step, r: nat) {
    GoodWork(step) || (OfRun(step) && step.r == r)
  }

  lemma WaitsAndEnds(s: State, captures: nat -> nat, r: nat) returns (steps: seq<Step>, s': State)
    requires Full(s, captures) && r < |s.runs| && Healthy(s, r)
    requires s.runs[r].Waiting? || s.runs[r].Deciding? || s.runs[r].Polling?
    ensures Leads(s, captures, steps, s') && (forall step :: step in steps ==> Calm(step, r))
    ensures r < |s'.runs| && s'.runs[r] == Done(true)
  {
    var xs, m := [], s;
    if s.runs[r].Waiting? {
      xs, m := WorkersReport(s, captures, |s.workers|, r);
      ReportsSuffice(m, captures, r);
    }
    var ys;
    ys, s' := HearsAll(m, captures, r);
    LeadsThen(s, captures, xs, m, ys, s');
    steps := xs + ys;
  }

  /** From any state the engine can reach in which nothing went wrong, every unfinished call is led to Ok, by its own
      steps and the workers' good work. */
  lemma HealthyEnds(trace: seq<State>, captures: nat -> nat, i: nat, r: nat) returns (steps: seq<Step>, s': State)
    requires Execution(trace, captures) && i < |trace| && r < |trace[i].runs| == |trace[i].log|
    requires Healthy(trace[i], r) && Unfinished(trace[i], r)
    ensures Leads(trace[i], captures, steps, s') && (forall step :: step in steps ==> Calm(step, r))
    ensures r < |s'.runs| && s'.runs[r] == Done(true)
  {
    ExecutionFull(trace, captures, i);
    var s := trace[i];
    var xs, m := [], s;
    if s.runs[r].Idle? || s.runs[r].Sending? {
      xs, m := SendsToAll(s, captures, r);
    }
    var ys;
    ys, s' := WaitsAndEnds(m, captures, r);
    LeadsThen(s, captures, xs, m, ys, s');
    steps := xs + ys;
  }
}
