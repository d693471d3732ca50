/** The background jobs of bio.c: any producers, and one worker per queue that runs each job outside the lock. */
module Bio {
  import opened Sequences
  import opened Adlist

  /** What the worker is doing: waiting for (or woken by) the condition variable, or holding the first job. */
  datatype Worker<J> = Blocked(woken: bool) | Running(job: J) | Ran(job: J)

  /** A queue as a value: its jobs, the counter `bio_pending`, the worker, and the jobs run so far. */
  datatype State<J> = State(queue: seq<J>, pending: int, worker: Worker<J>, executed: seq<J>)

  /** The steps that can be interleaved: each is what one thread does between taking and leaving the lock,
      or (`Execute`) without it. */
  datatype Event<J> = Submit(job: J) | Wake | Execute | Retire

  function Initial<J>(): State<J> {
    State([], 0, Blocked(true), [])
  }

  /** The head of the worker's loop, with the lock held. */
  function Check<J>(s: State<J>): State<J> {
    s.(worker := if |s.queue| == 0 then Blocked(false) else Running(s.queue[0]))
  }

  /** One step; a step of the worker that is not its next one does nothing. */
  function Step<J>(s: State<J>, e: Event<J>): State<J> {
    match e
    case Submit(job) =>
      s.(queue := s.queue + [job], pending := s.pending + 1,
         worker := if s.worker.Blocked? then Blocked(true) else s.worker)
    case Wake => if s.worker.Blocked? then Check(s) else s
    case Execute => if s.worker.Running? then s.(worker := Ran(s.worker.job), executed := s.executed + [s.worker.job]) else s
    case Retire => if s.worker.Ran? && |s.queue| > 0 then Check(s.(queue := s.queue[1..], pending := s.pending - 1)) else s
  }

  function Run<J>(s: State<J>, events: seq<Event<J>>): State<J> {
    if events == [] then s else Step(Run(s, events[..|events| - 1]), events[|events| - 1])
  }

  /** The jobs submitted by a sequence of steps, in order. */
  function Submitted<J>(events: seq<Event<J>>): seq<J> {
    if events == [] then []
    else
      var before := Submitted(events[..|events| - 1]);
      match events[|events| - 1] { case Submit(job) => before + [job] case _ => before }
  }

  /** The jobs of the queue the worker has not run yet: all but the one it has run and not yet removed. */
  function Waiting<J>(s: State<J>): seq<J> {
    if s.worker.Ran? && |s.queue| > 0 then s.queue[1..] else s.queue
  }

  ghost predicate Consistent<J>(s: State<J>) {
    && s.pending == |s.queue|
    && (s.worker.Blocked? || (|s.queue| > 0 && s.worker.job == s.queue[0]))
    && (s.worker == Blocked(false) ==> s.queue == [])
  }

  /**
   * In every run, each submitted job was run exactly once or still waits, in the order of submission. The
   * counter is the length of the queue, which includes the job in progress, and no wake-up is lost: the
   * worker never sleeps beside a waiting job.
   */
  lemma {:induction false} RunsInOrder<J>(events: seq<Event<J>>)
    ensures var s := Run(Initial<J>(), events);
            Consistent(s) && s.executed + Waiting(s) == Submitted(events)
  {
    if events != [] {
      var before := events[..|events| - 1];
      RunsInOrder(before);
      StepKeeps(Run(Initial<J>(), before), events[|events| - 1], Submitted(before));
    }
  }

  lemma StepKeeps<J>(s: State<J>, e: Event<J>, submitted: seq<J>)
    requires Consistent(s) && s.executed + Waiting(s) == submitted
    ensures var t := Step(s, e);
            Consistent(t) && t.executed + Waiting(t) == if e.Submit? then submitted + [e.job] else submitted
  {
    match e
    case Submit(job) =>
      assert Waiting(Step(s, e)) == Waiting(s) + [job];
    case _ =>
  }

  /** The one step the worker can make next. */
  function NextOfWorker<J>(s: State<J>): Event<J> {
    match s.worker case Blocked(_) => Wake case Running(_) => Execute case Ran(_) => Retire
  }

  /** The state after a number of steps of the worker alone. */
  function Work<J>(s: State<J>, steps: nat): State<J>
    decreases steps
  {
    if steps == 0 then s else Work(Step(s, NextOfWorker(s)), steps - 1)
  }

  /** The steps the worker needs to be done. */
  ghost function Remaining<J>(s: State<J>): nat
    requires Consistent(s)
  {
    match s.worker
    case Blocked(woken) => if woken then 2 * |s.queue| + 1 else 0
    case Running(_) => 2 * |s.queue|
    case Ran(_) => 2 * |s.queue| - 1
  }

  /** Left alone, the worker runs every job that waits, in order, and then sleeps with nothing pending. */
  lemma {:induction false} WorkerDrains<J>(s: State<J>)
    requires Consistent(s)
    ensures Work(s, Remaining(s)) == State([], 0, Blocked(false), s.executed + Waiting(s))
    decreases Remaining(s)
  {
    if Remaining(s) > 0 {
      var t := Step(s, NextOfWorker(s));
      assert t.executed + Waiting(t) == s.executed + Waiting(s);
      WorkerDrains(t);
    } else {
      assert s.executed + [] == s.executed;
    }
  }

  lemma AfterSubmit<J>(s: State<J>, job: J)
    requires Consistent(s)
    ensures Step(s, Submit(job)) == State(s.queue + [job], s.pending + 1,
                                          if s.worker.Blocked? then Blocked(true) else s.worker, s.executed)
    ensures Consistent(Step(s, Submit(job))) && s.pending == |s.queue|
  {
  }

  lemma AfterRetire<J>(s: State<J>)
    requires Consistent(s) && s.worker.Ran?
    ensures |s.queue| > 0 && s.pending == |s.queue|
    ensures Step(s, Retire) == Check(State(s.queue[1..], s.pending - 1, s.worker, s.executed))
  {
  }

  lemma AppendedValue<J>(nodes: seq<Node<J>>, n: Node<J>)
    ensures Values(nodes + [n]) == Values(nodes) + [n.value]
  {
  }

  lemma FirstValueCut<J>(nodes: seq<Node<J>>)
    requires |nodes| > 0
    ensures Cut(nodes, 0) == nodes[1..] && Values(Cut(nodes, 0)) == Values(nodes)[1..]
  {
  }

  /** One type of jobs: its list, counter and worker thread. */
  class Queue<J(==)> {
    const jobs: List<J>
    var pending: int
    var worker: Worker<J>
    /** The worker's `ln`. */
    var ln: Node?<J>
    /** The jobs processed so far. */
    ghost var executed: seq<J>

    ghost predicate Valid()
      reads this, jobs, jobs.nodes
    {
      && jobs.Valid() && Consistent(View())
      && (!worker.Blocked? ==> |jobs.nodes| > 0 && ln == jobs.nodes[0])
    }

    ghost function View(): State<J>
      reads this, jobs
    {
      State(Values(jobs.nodes), pending, worker, executed)
    }

    /** `bioInit` for one type. */
    constructor ()
      ensures Valid() && fresh(jobs) && View() == Initial()
    {
      jobs := new List<J>();
      pending, worker, ln, executed := 0, Blocked(true), null, [];
    }

    /** `bioCreateBackgroundJob`. The node the worker holds, if any, stays where it is. */
    method CreateBackgroundJob(job: J)
      requires Valid()
      modifies this, jobs, jobs.nodes
      ensures Valid() && View() == Step(old(View()), Submit(job)) && ln == old(ln)
      ensures old(jobs.nodes) <= jobs.nodes && fresh(set n | n in jobs.nodes[|old(jobs.nodes)|..])
    {
      hide List.Valid, Step, Consistent, Values;
      AfterSubmit(View(), job);
      ghost var before := jobs.nodes;
      jobs.AddNodeTail(job);
      pending := pending + 1;
      if worker.Blocked? {
        worker := Blocked(true);
      }
      AppendedValue(before, jobs.nodes[|before|]);
    }

    /** The head of the worker's loop: waits, or takes the first node and leaves the lock. */
    method Pop()
      requires jobs.Valid() && pending == jobs.len
      modifies this
      ensures Valid() && View() == Check(old(View()))
    {
      if jobs.len == 0 {
        worker := Blocked(false);
      } else {
        ln := jobs.head;
        worker := Running(ln.value);
      }
    }

    /** The start of the thread, and the return of `pthread_cond_wait`, signalled or not. */
    method WakeUp()
      requires Valid() && worker.Blocked?
      modifies this
      ensures Valid() && View() == Step(old(View()), Wake)
    {
      Pop();
    }

    /** Processes the job, without the lock: the list and the counter are neither read nor written. */
    method Process()
      requires Valid() && worker.Running?
      modifies this`worker, this`executed
      ensures Valid() && View() == Step(old(View()), Execute)
    {
      var job := worker.job;
      executed := executed + [job];
      worker := Ran(job);
    }

    /** Takes the lock again, deletes the node, which is the head still, and goes round the loop. */
    method Finish()
      requires Valid() && worker.Ran?
      modifies this, jobs, jobs.nodes
      ensures Valid() && View() == Step(old(View()), Retire)
      ensures jobs.nodes == old(jobs.nodes)[1..]
    {
      hide List.Valid, Step, Check, Consistent, Values;
      AfterRetire(View());
      FirstValueCut(jobs.nodes);
      jobs.DelNode(ln, 0);
      jobs.Length();
      pending := pending - 1;
      Pop();
    }

    /** `bioPendingJobsOfType`: the jobs submitted and not yet removed, the one in progress included. */
    method PendingJobsOfType() returns (val: int)
      requires Valid()
      ensures val == |View().queue| && (val == 0 ==> worker.Blocked?)
    {
      val := pending;
    }
  }
}
