/**
 The background job queue (bio.c) of one type, under every interleaving of any number of client threads and the
 worker thread. Each step of a thread is one access to the shared data; a mutex and two condition variables order them.
 */
module Bio {

  /** Jobs and client threads by number. */
  type Job = nat
  type Tid = nat

  datatype Owner = Free | ByWorker | ByClient(t: Tid)

  /** Where a client thread is in bioSubmitJob, bioPendingJobsOfType or bioWaitStepOfType. */
  datatype Client =
    | Away
    | WantSubmit(job: Job) | Submitting(job: Job) | Added | Counted | Signalled
    | WantPoll | Polling | Polled(val: int)
    | WantStep | Stepping | Sleeping | Awake | Rereading | Stepped(val: int)

  /** Where the worker is in the loop of bioProcessBackgroundJobs. A node is known by its place in submission order. */
  datatype Worker =
    | Top | Asleep | Wakened
    | Took(node: nat) | Unlocked(node: nat) | Ran(node: nat) | Relocked(node: nat) | Deleted | Decremented

  /** `submitted` are all jobs ever queued and `ran` all jobs ever run, each in order. */
  datatype State = State(
    owner: Owner, queue: seq<nat>, pending: int, worker: Worker, clients: map<Tid, Client>, submitted: seq<Job>, ran: seq<Job>)

  datatype Call = Submit(job: Job) | Poll | WaitStep

  datatype Event =
    | Begin(t: Tid, call: Call) // a client enters one of the three functions
    | Move(t: Tid)              // a client makes its next step
    | Work                      // the worker makes its next step
    | Spurious(t: Tid)          // a waiting client wakes for no reason
    | SpuriousWork              // the worker wakes for no reason

  // ------------------------------------------------------------------ the client threads

  function Set(s: State, t: Tid, c: Client): State { s.(clients := s.clients[t := c]) }

  /** pthread_cond_signal on the condition the worker waits for. */
  function Signal(s: State): State { if s.worker == Asleep then s.(worker := Wakened) else s }

  /** pthread_cond_broadcast on the condition clients wait for. */
  function Broadcast(s: State): State {
    s.(clients := map t | t in s.clients :: if s.clients[t] == Sleeping then Awake else s.clients[t])
  }

  function ClientStep(s: State, t: Tid): State
    requires t in s.clients
  {
    match s.clients[t]
    case Away => s
    case WantSubmit(job) => if s.owner == Free then Set(s, t, Submitting(job)).(owner := ByClient(t)) else s
    case Submitting(job) => Set(s, t, Added).(queue := s.queue + [|s.submitted|], submitted := s.submitted + [job])
    case Added => Set(s, t, Counted).(pending := s.pending + 1)
    case Counted => Set(Signal(s), t, Signalled)
    case Signalled => Set(s, t, Away).(owner := Free)
    case WantPoll => if s.owner == Free then Set(s, t, Polling).(owner := ByClient(t)) else s
    case Polling => Set(s, t, Polled(s.pending))
    case Polled(_) => Set(s, t, Away).(owner := Free)
    case WantStep => if s.owner == Free then Set(s, t, Stepping).(owner := ByClient(t)) else s
    case Stepping => if s.pending != 0 then Set(s, t, Sleeping).(owner := Free) else Set(s, t, Stepped(s.pending))
    case Sleeping => s
    case Awake => if s.owner == Free then Set(s, t, Rereading).(owner := ByClient(t)) else s
    case Rereading => Set(s, t, Stepped(s.pending))
    case Stepped(_) => Set(s, t, Away).(owner := Free)
  }

  // ------------------------------------------------------------------ the worker thread

  function Without(queue: seq<nat>, node: nat): seq<nat> {
    if |queue| == 0 then [] else if queue[0] == node then queue[1..] else [queue[0]] + Without(queue[1..], node)
  }

  function WorkerStep(s: State): State {
    match s.worker
    case Top => if |s.queue| == 0 then s.(worker := Asleep, owner := Free) else s.(worker := Took(s.queue[0]))
    case Asleep => s
    case Wakened => if s.owner == Free then s.(worker := Top, owner := ByWorker) else s
    case Took(n) => s.(worker := Unlocked(n), owner := Free)
    case Unlocked(n) => s.(worker := Ran(n), ran := s.ran + (if n < |s.submitted| then [s.submitted[n]] else []))
    case Ran(n) => if s.owner == Free then s.(worker := Relocked(n), owner := ByWorker) else s
    case Relocked(n) => s.(worker := Deleted, queue := Without(s.queue, n))
    case Deleted => s.(worker := Decremented, pending := s.pending - 1)
    case Decremented => Broadcast(s).(worker := Top)
  }

  function Next(s: State, e: Event): State {
    match e
    case Begin(t, call) =>
      if t in s.clients && s.clients[t] != Away then s
      else Set(s, t, match call case Submit(job) => WantSubmit(job) case Poll => WantPoll case WaitStep => WantStep)
    case Move(t) => if t in s.clients then ClientStep(s, t) else s
    case Work => WorkerStep(s)
    case Spurious(t) => if t in s.clients && s.clients[t] == Sleeping then Set(s, t, Awake) else s
    case SpuriousWork => Signal(s)
  }

  function Run(s: State, es: seq<Event>): State {
    if |es| == 0 then s else Next(Run(s, es[..|es| - 1]), es[|es| - 1])
  }

  /** bioInit, and the worker's first lock. */
  const START := State(ByWorker, [], 0, Top, map[], [], [])

  // ------------------------------------------------------------------ the invariant

  /** A client that holds the lock. */
  predicate Inside(c: Client) {
    c.Submitting? || c == Added || c == Counted || c == Signalled || c == Polling || c.Polled? || c == Stepping || c == Rereading || c.Stepped?
  }

  predicate WorkerInside(w: Worker) { w == Top || w.Took? || w.Relocked? || w == Deleted || w == Decremented }

  /** The lock is held by the one thread that is inside. */
  ghost predicate Exclusive(s: State) {
    && (WorkerInside(s.worker) <==> s.owner == ByWorker)
    && (forall t | t in s.clients :: Inside(s.clients[t]) <==> s.owner == ByClient(t))
    && (s.owner.ByClient? ==> s.owner.t in s.clients)
  }

  /** The client that holds the lock, if one does. */
  function Holder(s: State): Client { if s.owner.ByClient? && s.owner.t in s.clients then s.clients[s.owner.t] else Away }

  /** The job that was run and not yet taken off the queue. */
  function Done(s: State): nat { if s.worker.Ran? || s.worker.Relocked? then 1 else 0 }

  /** The queue is exactly the jobs submitted and not yet taken off, in order; a taken node is its head. */
  ghost predicate InLine(s: State) {
    && Done(s) <= |s.ran| && |s.ran| - Done(s) + |s.queue| == |s.submitted|
    && (forall i | 0 <= i < |s.queue| :: s.queue[i] == |s.ran| - Done(s) + i)
    && (s.worker.Took? || s.worker.Unlocked? || s.worker.Ran? || s.worker.Relocked? ==> |s.queue| > 0 && s.worker.node == s.queue[0])
  }

  /** Jobs ran in submission order, each once. */
  ghost predicate RanInOrder(s: State) { s.ran <= s.submitted }

  /** The counter is the queue length, except inside the two critical sections that change them one after the other. */
  ghost predicate Counts(s: State) {
    s.pending == |s.queue| - (if Holder(s) == Added then 1 else 0) + (if s.worker == Deleted then 1 else 0)
  }

  /** Nobody sleeps through what it waits for. */
  ghost predicate NoLostWakeup(s: State) {
    && (s.worker == Asleep ==> |s.queue| == 0 || Holder(s) == Added || Holder(s) == Counted)
    && (forall t | t in s.clients :: s.clients[t] == Sleeping ==> s.pending > 0 || s.worker == Decremented)
  }

  ghost predicate Inv(s: State) { Exclusive(s) && InLine(s) && RanInOrder(s) && Counts(s) && NoLostWakeup(s) }

  // ------------------------------------------------------------------ every step keeps it

  lemma BeginKeeps(s: State, t: Tid, call: Call)
    requires Inv(s)
    ensures Inv(Next(s, Begin(t, call)))
  {
  }

  lemma MoveExcludes(s: State, t: Tid)
    requires Exclusive(s) && t in s.clients
    ensures Exclusive(ClientStep(s, t))
  {
  }

  lemma MoveInLine(s: State, t: Tid)
    requires Exclusive(s) && InLine(s) && RanInOrder(s) && t in s.clients
    ensures InLine(ClientStep(s, t)) && RanInOrder(ClientStep(s, t))
  {
    hide Exclusive;
  }

  lemma MoveCounts(s: State, t: Tid)
    requires Exclusive(s) && Counts(s) && t in s.clients
    ensures Counts(ClientStep(s, t))
  {
    hide InLine;
    MoveExcludes(s, t);
  }

  lemma MoveWakes(s: State, t: Tid)
    requires Exclusive(s) && Counts(s) && NoLostWakeup(s) && t in s.clients
    ensures NoLostWakeup(ClientStep(s, t))
  {
    var s' := ClientStep(s, t);
    if s'.worker == Asleep { assert s.worker == Asleep; }
    forall u | u in s'.clients && s'.clients[u] == Sleeping ensures s'.pending > 0 || s'.worker == Decremented {
      if u != t { assert s.clients[u] == Sleeping; }
    }
  }

  lemma MoveKeeps(s: State, t: Tid)
    requires Inv(s)
    ensures Inv(Next(s, Move(t)))
  {
    hide ClientStep, Exclusive, InLine, RanInOrder, Counts, NoLostWakeup;
    if t in s.clients {
      MoveExcludes(s, t);
      MoveInLine(s, t);
      MoveCounts(s, t);
      MoveWakes(s, t);
    }
  }

  lemma WorkExcludes(s: State)
    requires Exclusive(s)
    ensures Exclusive(WorkerStep(s))
  {
  }

  lemma WorkInLine(s: State)
    requires InLine(s) && RanInOrder(s)
    ensures InLine(WorkerStep(s)) && RanInOrder(WorkerStep(s))
  {
    var s' := WorkerStep(s);
    if s.worker.Unlocked? {
      assert s.worker.node == |s.ran| < |s.submitted|;
      assert s.ran + [s.submitted[|s.ran|]] <= s.submitted;
    }
    if s.worker.Relocked? { assert s'.queue == s.queue[1..]; }
  }

  lemma WorkCounts(s: State)
    requires Exclusive(s) && InLine(s) && Counts(s)
    ensures Counts(WorkerStep(s))
  {
    var s' := WorkerStep(s);
    if s.worker.Relocked? { assert s'.queue == s.queue[1..]; }
  }

  lemma WorkWakes(s: State)
    requires Exclusive(s) && InLine(s) && Counts(s) && NoLostWakeup(s)
    ensures NoLostWakeup(WorkerStep(s))
  {
  }

  lemma WorkKeeps(s: State)
    requires Inv(s)
    ensures Inv(Next(s, Work))
  {
    hide WorkerStep, Exclusive, InLine, RanInOrder, Counts, NoLostWakeup;
    WorkExcludes(s);
    WorkInLine(s);
    WorkCounts(s);
    WorkWakes(s);
  }

  lemma WakeKeeps(s: State, t: Tid)
    requires Inv(s)
    ensures Inv(Next(s, Spurious(t)))
  {
  }

  lemma WakeWorkKeeps(s: State)
    requires Inv(s)
    ensures Inv(Next(s, SpuriousWork))
  {
  }

  lemma {:induction false} RunKeeps(es: seq<Event>)
    ensures Inv(Run(START, es))
  {
    hide Inv, Next;
    if |es| == 0 {
      StartIsGood();
    } else {
      var s := Run(START, es[..|es| - 1]);
      RunKeeps(es[..|es| - 1]);
      match es[|es| - 1] {
        case Begin(t, call) => BeginKeeps(s, t, call);
        case Move(t) => MoveKeeps(s, t);
        case Work => WorkKeeps(s);
        case Spurious(t) => WakeKeeps(s, t);
        case SpuriousWork => WakeWorkKeeps(s);
      }
    }
  }

  lemma StartIsGood()
    ensures Inv(START)
  {
  }

  // ------------------------------------------------------------------ what follows

  /**
   After any run: jobs have run in submission order, each exactly once; with the lock free the counter is the queue
   length and no thread sleeps while there is something to wake it.
   */
  lemma Guarantees(es: seq<Event>)
    ensures var s := Run(START, es);
      && s.ran <= s.submitted
      && (s.owner == Free ==> s.pending == |s.queue|)
      && (s.owner == Free && s.worker == Asleep ==> |s.queue| == 0 && s.ran == s.submitted)
      && (s.owner == Free ==> forall t | t in s.clients :: s.clients[t] == Sleeping ==> s.pending > 0)
  {
    hide Run;
    RunKeeps(es);
    var s := Run(START, es);
    assert Inv(s);
    if s.owner == Free && s.worker == Asleep { assert |s.ran| == |s.submitted|; }
  }

  /** A client about to read the counter. */
  predicate Reads(c: Client) { c == Polling || c == Stepping || c == Rereading }

  /** A count of zero, whenever it is read, means that every job submitted so far has finished running. */
  lemma ZeroMeansFinished(es: seq<Event>, t: Tid)
    requires var s := Run(START, es); t in s.clients && Reads(s.clients[t])
    ensures var s := Run(START, es);
      && s.pending == |s.queue| && (s.pending == 0 ==> s.ran == s.submitted && !s.worker.Took? && !s.worker.Unlocked?)
      && (s.clients[t] != Stepping || s.pending == 0 ==> Next(s, Move(t)).clients[t] in {Polled(s.pending), Stepped(s.pending)})
  {
    hide Run;
    RunKeeps(es);
    var s := Run(START, es);
    assert Inv(s);
    assert Inside(s.clients[t]) && s.owner == ByClient(t);
    if s.pending == 0 { assert |s.ran| - Done(s) == |s.submitted|; }
  }

  // ------------------------------------------------------------------ everything gets done

  /** Steps of the client that holds the lock, and then of the worker. */
  function Continue(t: Tid, moves: nat, works: nat): seq<Event> { seq(moves, _ => Move(t)) + seq(works, _ => Work) }

  function MovesOn(s: State, t: Tid, n: nat): State
    decreases n
  {
    if n == 0 then s else MovesOn(Next(s, Move(t)), t, n - 1)
  }

  function WorksOn(s: State, n: nat): State
    decreases n
  {
    if n == 0 then s else WorksOn(Next(s, Work), n - 1)
  }

  lemma {:induction false} RunMore(s: State, e: Event, es: seq<Event>)
    ensures Run(s, [e] + es) == Run(Next(s, e), es)
  {
    hide Next;
    if |es| == 0 {
      assert [e] + es == [e] && [e][..0] == [];
      assert Run(s, [e]) == Next(Run(s, []), e);
    } else {
      RunMore(s, e, es[..|es| - 1]);
      assert ([e] + es)[..|es|] == [e] + es[..|es| - 1];
    }
  }

  lemma {:induction false} ContinueIs(s: State, t: Tid, moves: nat, works: nat)
    ensures Run(s, Continue(t, moves, works)) == WorksOn(MovesOn(s, t, moves), works)
    decreases moves, works
  {
    hide Next;
    var es := Continue(t, moves, works);
    if moves > 0 {
      ContinueIs(Next(s, Move(t)), t, moves - 1, works);
      RunMore(s, Move(t), Continue(t, moves - 1, works));
      assert es == [Move(t)] + Continue(t, moves - 1, works);
    } else if works > 0 {
      ContinueIs(Next(s, Work), t, 0, works - 1);
      RunMore(s, Work, Continue(t, 0, works - 1));
      assert es == [Work] + Continue(t, 0, works - 1);
    }
  }

  /** How far the worker is from sleep. */
  function Ahead(s: State): nat {
    10 * |s.queue| +
    match s.worker
    case Deleted => 9
    case Decremented => 8
    case Wakened => 8
    case Top => 7
    case Took(_) => 6
    case Unlocked(_) => 5
    case Ran(_) => 4
    case Relocked(_) => 3
    case Asleep => 0
  }

  lemma WorkAdvances(s: State)
    requires Inv(s) && !s.owner.ByClient? && s.worker != Asleep
    ensures var t := Next(s, Work); Ahead(t) < Ahead(s) && !t.owner.ByClient? && t.submitted == s.submitted
  {
    if s.worker.Relocked? { assert Next(s, Work).queue == s.queue[1..]; }
  }

  lemma {:induction false} WorkerDrains(s: State) returns (n: nat)
    requires Inv(s) && !s.owner.ByClient?
    ensures var t := WorksOn(s, n);
      Inv(t) && !t.owner.ByClient? && t.worker == Asleep && t.submitted == s.submitted
    decreases Ahead(s)
  {
    hide Inv, Next;
    n := 0;
    if s.worker != Asleep {
      WorkKeeps(s);
      WorkAdvances(s);
      n := WorkerDrains(Next(s, Work));
      n := n + 1;
    }
  }

  /** A client that holds the lock gives it up within four steps. */
  lemma HolderLeaves(s: State, t: Tid) returns (n: nat)
    requires Inv(s) && s.owner == ByClient(t)
    ensures var s' := MovesOn(s, t, n); n <= 4 && Inv(s') && !s'.owner.ByClient? && s.submitted <= s'.submitted
  {
    hide MovesOn;
    MovesNone(s, t);
    n := 0;
    var s' := s;
    while s'.owner == ByClient(t)
      invariant n + Inner(s', t) <= 4 && s' == MovesOn(s, t, n) && Inv(s') && s.submitted <= s'.submitted
      invariant s'.owner == ByClient(t) || !s'.owner.ByClient?
      decreases Inner(s', t)
    {
      MoveKeeps(s', t);
      Leaving(s', t);
      MovesLast(s, t, n);
      s', n := Next(s', Move(t)), n + 1;
    }
  }

  function Inner(s: State, t: Tid): nat {
    if t !in s.clients then 0
    else
      match s.clients[t]
      case Submitting(_) => 4
      case Added => 3
      case Counted => 2
      case Stepping => 2
      case Polling => 2
      case Rereading => 2
      case Signalled => 1
      case Polled(_) => 1
      case Stepped(_) => 1
      case _ => 0
  }

  lemma Leaving(s: State, t: Tid)
    requires Inv(s) && s.owner == ByClient(t)
    ensures var s' := Next(s, Move(t));
      Inner(s', t) < Inner(s, t) && (s'.owner == ByClient(t) || !s'.owner.ByClient?) && s.submitted <= s'.submitted
  {
  }

  lemma MovesNone(s: State, t: Tid)
    ensures MovesOn(s, t, 0) == s
  {
  }

  lemma {:induction false} MovesLast(s: State, t: Tid, n: nat)
    ensures MovesOn(s, t, n + 1) == Next(MovesOn(s, t, n), Move(t))
    decreases n
  {
    hide Next;
    if n > 0 { MovesLast(Next(s, Move(t)), t, n - 1); }
  }

  /**
   No run gets stuck: wherever the threads stand, some steps of the client that holds the lock, if one does, and of the
   worker alone run every job submitted, take the count to zero, and wake everybody who waits for it.
   */
  lemma EveryJobRuns(es: seq<Event>) returns (t: Tid, moves: nat, works: nat)
    ensures moves <= 4
    ensures var s, s' := Run(START, es), Run(Run(START, es), Continue(t, moves, works));
      && s.submitted <= s'.submitted && s'.ran == s'.submitted && s'.pending == 0
      && s'.worker == Asleep && forall u | u in s'.clients :: s'.clients[u] != Sleeping
  {
    hide Run, Next, MovesOn, WorksOn;
    RunKeeps(es);
    var s := Run(START, es);
    t, moves := 0, 0;
    if s.owner.ByClient? {
      t := s.owner.t;
      moves := HolderLeaves(s, t);
    } else {
      MovesNone(s, t);
    }
    var s1 := MovesOn(s, t, moves);
    works := WorkerDrains(s1);
    ContinueIs(s, t, moves, works);
    var s' := WorksOn(s1, works);
    assert Inv(s');
    assert |s'.queue| == 0 && |s'.ran| == |s'.submitted|;
  }
}
