/** libae/threadpool.c: workers fed by a bounded priority queue. The loops of the
    workers and of join are broken into steps that the scheduler interleaves. */
module ThreadPool {

  datatype Job = Job(func: nat, args: nat)

  datatype Msg = Stop | Run(job: Job)

  /** AE_THREADPOOL_PRIORITY_STOP and AE_THREADPOOL_PRIORITY_JOB. */
  function Priority(m: Msg): nat {
    match m
    case Stop => 10
    case Run(_) => 1
  }

  /** mq_maxmsg. */
  const CAPACITY: nat := 10

  /** mq_send: behind every message of the same or a higher priority. */
  function Insert(q: seq<Msg>, m: Msg): seq<Msg> {
    if q == [] then [m]
    else if Priority(q[0]) >= Priority(m) then [q[0]] + Insert(q[1..], m)
    else [m] + q
  }

  /** A worker waits in mq_receive, runs a job, or has returned. */
  datatype Worker = Idle | Running(job: Job) | Exited

  /** Where ae_threadpool_join stands: before the call, about to send STOP number
      `i`, about to wait for thread `i`, or back at the caller. */
  datatype Join = NotCalled | Sending(i: nat) | Reaping(i: nat) | Returned

  /** The last three fields record what happened: the jobs accepted by the queue
      and the jobs begun, both in order, and the jobs finished. */
  datatype State = State(workers: seq<Worker>, queue: seq<Msg>, join: Join,
                         enqueued: seq<Job>, started: seq<Job>, finished: multiset<Job>)

  datatype Step =
    | Enqueue(job: Job)   // a client's mq_send returns
    | CallJoin
    | SendStop            // join's mq_send returns
    | Reap                // pthread_join returns
    | Receive(w: nat)     // worker w's mq_receive returns
    | Finish(w: nat)      // worker w's job returns

  predicate Enabled(s: State, step: Step) {
    match step
    case Enqueue(_) => |s.queue| < CAPACITY
    case CallJoin => s.join.NotCalled?
    case SendStop => s.join.Sending? && |s.queue| < CAPACITY
    case Reap => s.join.Reaping? && s.join.i < |s.workers| && s.workers[s.join.i].Exited?
    case Receive(w) => w < |s.workers| && s.workers[w].Idle? && s.queue != []
    case Finish(w) => w < |s.workers| && s.workers[w].Running?
  }

  function Next(s: State, step: Step): State
    requires Enabled(s, step)
  {
    match step
    case Enqueue(job) => s.(queue := Insert(s.queue, Run(job)), enqueued := s.enqueued + [job])
    case CallJoin => s.(join := if |s.workers| == 0 then Returned else Sending(0))
    case SendStop =>
      s.(queue := Insert(s.queue, Stop),
         join := if s.join.i + 1 < |s.workers| then Sending(s.join.i + 1) else Reaping(0))
    case Reap =>
      s.(join := if s.join.i + 1 < |s.workers| then Reaping(s.join.i + 1) else Returned)
    case Receive(w) =>
      (match s.queue[0]
       case Stop => s.(queue := s.queue[1..], workers := s.workers[w := Exited])
       case Run(job) =>
         s.(queue := s.queue[1..], workers := s.workers[w := Running(job)], started := s.started + [job]))
    case Finish(w) =>
      s.(workers := s.workers[w := Idle], finished := s.finished + multiset{s.workers[w].job})
  }

  /** All `n` threads have been created and wait. */
  function Started(n: nat): State {
    State(seq(n, _ => Idle), [], NotCalled, [], [], multiset{})
  }

  // ----- observations -----

  function StopsSent(s: State): nat {
    match s.join
    case NotCalled => 0
    case Sending(i) => i
    case Reaping(_) => |s.workers|
    case Returned => |s.workers|
  }

  function Reaped(s: State): nat {
    match s.join
    case NotCalled => 0
    case Sending(_) => 0
    case Reaping(i) => i
    case Returned => |s.workers|
  }

  function StopsIn(q: seq<Msg>): nat {
    if q == [] then 0 else (if q[0].Stop? then 1 else 0) + StopsIn(q[1..])
  }

  /** The queued jobs, first to leave first. */
  function JobsIn(q: seq<Msg>): seq<Job> {
    if q == [] then [] else (if q[0].Run? then [q[0].job] else []) + JobsIn(q[1..])
  }

  function ExitedIn(ws: seq<Worker>): nat {
    if ws == [] then 0 else (if ws[0].Exited? then 1 else 0) + ExitedIn(ws[1..])
  }

  function JobOf(x: Worker): multiset<Job> {
    if x.Running? then multiset{x.job} else multiset{}
  }

  /** The jobs being run. */
  function RunningIn(ws: seq<Worker>): multiset<Job> {
    if ws == [] then multiset{}
    else JobOf(ws[0]) + RunningIn(ws[1..])
  }

  /** All STOPs come before all jobs. */
  ghost predicate StopsFirst(q: seq<Msg>) {
    forall i, j :: 0 <= i < j < |q| && q[j].Stop? ==> q[i].Stop?
  }

  ghost predicate Inv(s: State) {
    && |s.queue| <= CAPACITY
    && StopsFirst(s.queue)
    && (s.join.Sending? || s.join.Reaping? ==> s.join.i < |s.workers|)
    && StopsSent(s) == StopsIn(s.queue) + ExitedIn(s.workers)
    && s.started + JobsIn(s.queue) == s.enqueued
    && Accounted(s.started, s.finished, RunningIn(s.workers))
    && AllExited(s.workers, Reaped(s))
  }

  /** Every job begun is finished or being run. */
  ghost predicate Accounted(started: seq<Job>, finished: multiset<Job>, running: multiset<Job>) {
    multiset(started) == finished + running
  }

  /** The first `n` threads have exited. */
  ghost predicate AllExited(ws: seq<Worker>, n: nat) {
    n <= |ws| && forall w :: 0 <= w < n ==> ws[w].Exited?
  }

  // ----- the queue -----

  lemma {:induction false} InsertStop(q: seq<Msg>)
    requires StopsFirst(q)
    ensures var q' := Insert(q, Stop);
      && |q'| == |q| + 1 && StopsFirst(q')
      && StopsIn(q') == StopsIn(q) + 1 && JobsIn(q') == JobsIn(q)
    ensures q != [] && q[0].Run? ==> Insert(q, Stop) == [Stop] + q
  {
    if q == [] {
    } else if q[0].Stop? {
      Dequeue(q);
      InsertStop(q[1..]);
      var rest := Insert(q[1..], Stop);
      var q' := Insert(q, Stop);
      assert q' == [q[0]] + rest && q'[1..] == rest;
    } else {
      assert Insert(q, Stop) == [Stop] + q;
      assert ([Stop] + q)[1..] == q;
      assert forall j :: 0 < j < |q| + 1 ==> ([Stop] + q)[j].Run? by {
        assert forall j :: 0 < j < |q| ==> q[j].Run?;
      }
    }
  }

  /** `m` stands behind `k` messages of the same or a higher priority and before
      one of a lower priority, if before any. */
  ghost predicate PutAt(q: seq<Msg>, m: Msg, q': seq<Msg>, k: nat) {
    && k <= |q|
    && q' == q[..k] + [m] + q[k..]
    && (forall j :: 0 <= j < k ==> Priority(q[j]) >= Priority(m))
    && (k < |q| ==> Priority(q[k]) < Priority(m))
  }

  lemma {:induction false} PutLater(x: Msg, q: seq<Msg>, m: Msg, q': seq<Msg>, k: nat)
    requires PutAt(q, m, q', k) && Priority(x) >= Priority(m)
    ensures PutAt([x] + q, m, [x] + q', k + 1)
  {
    hide Priority;
    var p := [x] + q;
    assert p[..k + 1] == [x] + q[..k] && p[k + 1..] == q[k..];
    assert [x] + q' == p[..k + 1] + [m] + p[k + 1..];
  }

  lemma {:induction false} InsertPosition(q: seq<Msg>, m: Msg) returns (k: nat)
    ensures PutAt(q, m, Insert(q, m), k)
  {
    hide Priority;
    if q == [] || Priority(q[0]) < Priority(m) {
      k := 0;
    } else {
      k := InsertPosition(q[1..], m);
      PutLater(q[0], q[1..], m, Insert(q[1..], m), k);
      assert q == [q[0]] + q[1..];
      k := k + 1;
    }
  }

  /** There is only one such place, and mq_send puts the message there. */
  lemma {:induction false} InsertIff(q: seq<Msg>, m: Msg, q': seq<Msg>)
    ensures q' == Insert(q, m) <==> exists k :: PutAt(q, m, q', k)
  {
    var i := InsertPosition(q, m);
    forall k | PutAt(q, m, q', k)
      ensures k == i
    {
    }
  }

  /** A job goes to the very end, whatever is queued. */
  lemma {:induction false} InsertJob(q: seq<Msg>, job: Job)
    requires StopsFirst(q)
    ensures Insert(q, Run(job)) == q + [Run(job)]
    ensures StopsFirst(q + [Run(job)])
    ensures StopsIn(q + [Run(job)]) == StopsIn(q) && JobsIn(q + [Run(job)]) == JobsIn(q) + [job]
  {
    if q == [] {
    } else {
      InsertJob(q[1..], job);
      assert (q + [Run(job)])[1..] == q[1..] + [Run(job)];
    }
  }

  lemma {:induction false} NoStops(q: seq<Msg>)
    requires StopsFirst(q) && q != [] && q[0].Run?
    ensures StopsIn(q) == 0
  {
    assert forall j :: 0 < j < |q| ==> q[j].Run?;
    if |q| <= 1 {
    } else {
      assert q[1].Run?;
      NoStops(q[1..]);
    }
  }

  lemma {:induction false} QueueSize(q: seq<Msg>)
    ensures |q| == StopsIn(q) + |JobsIn(q)|
  {
    if q == [] {
    } else {
      QueueSize(q[1..]);
    }
  }

  // ----- the workers -----

  lemma {:induction false} UpdateExited(ws: seq<Worker>, w: nat, x: Worker)
    requires w < |ws|
    ensures ExitedIn(ws[w := x]) + (if ws[w].Exited? then 1 else 0) == ExitedIn(ws) + (if x.Exited? then 1 else 0)
  {
    if w == 0 {
      assert ws[0 := x][1..] == ws[1..];
    } else {
      assert ws[w := x][1..] == ws[1..][w - 1 := x];
      UpdateExited(ws[1..], w - 1, x);
    }
  }

  lemma {:induction false} UpdateRunning(ws: seq<Worker>, w: nat, x: Worker)
    requires w < |ws|
    ensures RunningIn(ws[w := x]) + JobOf(ws[w]) == RunningIn(ws) + JobOf(x)
  {
    hide JobOf;
    if w == 0 {
      assert ws[0 := x][1..] == ws[1..];
      Swap(JobOf(ws[0]), RunningIn(ws[1..]), JobOf(x));
    } else {
      var t, t' := ws[1..], ws[1..][w - 1 := x];
      assert ws[w := x][1..] == t';
      UpdateRunning(t, w - 1, x);
      Regroup(JobOf(ws[0]), RunningIn(t'), JobOf(ws[w]));
      Regroup(JobOf(ws[0]), RunningIn(t), JobOf(x));
    }
  }

  lemma {:induction false} UpdateWorker(ws: seq<Worker>, w: nat, x: Worker)
    requires w < |ws|
    ensures ExitedIn(ws[w := x]) + (if ws[w].Exited? then 1 else 0) == ExitedIn(ws) + (if x.Exited? then 1 else 0)
    ensures RunningIn(ws[w := x]) + JobOf(ws[w]) == RunningIn(ws) + JobOf(x)
    ensures |RunningIn(ws[w := x])| + |JobOf(ws[w])| == |RunningIn(ws)| + |JobOf(x)|
  {
    hide RunningIn, ExitedIn, JobOf;
    UpdateExited(ws, w, x);
    UpdateRunning(ws, w, x);
    assert |RunningIn(ws[w := x]) + JobOf(ws[w])| == |RunningIn(ws) + JobOf(x)|;
  }

  lemma {:induction false} Regroup(a: multiset<Job>, b: multiset<Job>, c: multiset<Job>)
    ensures (a + b) + c == a + (b + c)
  {
  }

  lemma {:induction false} Rotate(a: multiset<Job>, b: multiset<Job>, c: multiset<Job>)
    ensures a + (b + c) == (a + c) + b
  {
  }

  lemma {:induction false} Swap(a: multiset<Job>, b: multiset<Job>, c: multiset<Job>)
    ensures (c + b) + a == (a + b) + c
  {
  }

  /** A worker is running a job, has exited, or neither. */
  lemma {:induction false} WorkerShares(ws: seq<Worker>)
    ensures ExitedIn(ws) + |RunningIn(ws)| <= |ws|
  {
    if ws == [] {
    } else {
      WorkerShares(ws[1..]);
      assert |RunningIn(ws)| == |JobOf(ws[0])| + |RunningIn(ws[1..])|;
    }
  }

  lemma {:induction false} EveryoneExited(ws: seq<Worker>)
    ensures ExitedIn(ws) == |ws| <==> AllExited(ws, |ws|)
    ensures ExitedIn(ws) <= |ws|
  {
    if ws == [] {
    } else {
      var t := ws[1..];
      EveryoneExited(t);
      assert forall w :: 0 <= w < |t| ==> t[w] == ws[w + 1];
      if ws[0].Exited? && AllExited(t, |t|) {
        forall w | 0 <= w < |ws|
          ensures ws[w].Exited?
        {
          assert w > 0 ==> ws[w] == t[w - 1];
        }
      }
    }
  }

  lemma {:induction false} WorkerCounts(ws: seq<Worker>)
    ensures ExitedIn(ws) + |RunningIn(ws)| <= |ws|
    ensures ExitedIn(ws) == |ws| <==> AllExited(ws, |ws|)
  {
    WorkerShares(ws);
    EveryoneExited(ws);
  }

  /** While some worker has not returned, one can be named. */
  lemma {:induction false} LiveWorker(ws: seq<Worker>) returns (w: nat)
    requires ExitedIn(ws) < |ws|
    ensures w < |ws| && !ws[w].Exited?
  {
    if ws[0].Exited? {
      w := LiveWorker(ws[1..]);
      w := w + 1;
    } else {
      w := 0;
    }
  }

  // ----- the invariant -----

  lemma {:induction false} StartedInv(n: nat)
    ensures Inv(Started(n))
  {
    var ws := seq(n, _ => Idle);
    AllIdle(ws);
  }

  lemma {:induction false} AllIdle(ws: seq<Worker>)
    requires forall w :: 0 <= w < |ws| ==> ws[w].Idle?
    ensures ExitedIn(ws) == 0 && RunningIn(ws) == multiset{}
  {
    if ws == [] {
    } else {
      AllIdle(ws[1..]);
    }
  }

  /** Taking a message off the queue. */
  lemma {:induction false} Dequeue(q: seq<Msg>)
    requires StopsFirst(q) && q != []
    ensures StopsFirst(q[1..])
    ensures q[0].Stop? ==> StopsIn(q) == 1 + StopsIn(q[1..]) && JobsIn(q) == JobsIn(q[1..])
    ensures q[0].Run? ==> StopsIn(q) == StopsIn(q[1..]) && JobsIn(q) == [q[0].job] + JobsIn(q[1..])
  {
    var t := q[1..];
    forall i, j | 0 <= i < j < |t| && t[j].Stop?
      ensures t[i].Stop?
    {
      assert q[j + 1].Stop? && t[i] == q[i + 1];
    }
  }

  lemma {:induction false} BeginOne(started: seq<Job>, finished: multiset<Job>, running: multiset<Job>,
                                    running': multiset<Job>, job: Job)
    requires Accounted(started, finished, running) && running' + multiset{} == running + multiset{job}
    ensures Accounted(started + [job], finished, running')
  {
    assert running' == running + multiset{job};
    Regroup(finished, running, multiset{job});
  }

  lemma {:induction false} FinishOne(started: seq<Job>, finished: multiset<Job>, running: multiset<Job>,
                                     running': multiset<Job>, job: Job)
    requires Accounted(started, finished, running) && running' + multiset{job} == running + multiset{}
    ensures Accounted(started, finished + multiset{job}, running')
  {
    assert running == running' + multiset{job};
    Rotate(finished, running', multiset{job});
  }

  lemma {:induction false} ExitOne(started: seq<Job>, finished: multiset<Job>, running: multiset<Job>,
                                   running': multiset<Job>)
    requires Accounted(started, finished, running) && running' + multiset{} == running + multiset{}
    ensures Accounted(started, finished, running')
  {
    assert running + multiset{} == running;
    assert running' + multiset{} == running';
  }

  lemma {:induction false} ReceiveInv(s: State, w: nat)
    requires Inv(s) && Enabled(s, Receive(w))
    ensures Inv(Next(s, Receive(w)))
  {
    hide StopsFirst, RunningIn, ExitedIn, JobsIn, StopsIn, Accounted;
    Dequeue(s.queue);
    var s' := Next(s, Receive(w));
    assert AllExited(s'.workers, Reaped(s));
    UpdateWorker(s.workers, w, s'.workers[w]);
    if s.queue[0].Run? {
      var job := s.queue[0].job;
      assert s.started + ([job] + JobsIn(s.queue[1..])) == (s.started + [job]) + JobsIn(s.queue[1..]);
      BeginOne(s.started, s.finished, RunningIn(s.workers), RunningIn(s'.workers), job);
    } else {
      ExitOne(s.started, s.finished, RunningIn(s.workers), RunningIn(s'.workers));
    }
  }

  lemma {:induction false} FinishInv(s: State, w: nat)
    requires Inv(s) && Enabled(s, Finish(w))
    ensures Inv(Next(s, Finish(w)))
  {
    hide StopsFirst, RunningIn, ExitedIn, JobsIn, StopsIn, Accounted;
    var s' := Next(s, Finish(w));
    assert AllExited(s'.workers, Reaped(s));
    UpdateWorker(s.workers, w, Idle);
    FinishOne(s.started, s.finished, RunningIn(s.workers), RunningIn(s'.workers), s.workers[w].job);
  }

  lemma {:induction false} SendInv(s: State, step: Step)
    requires Inv(s) && Enabled(s, step) && (step.Enqueue? || step.SendStop?)
    ensures Inv(Next(s, step))
  {
    hide StopsFirst, RunningIn, ExitedIn, JobsIn, StopsIn, Insert, Accounted;
    match step {
      case Enqueue(job) =>
        InsertJob(s.queue, job);
        assert s.started + (JobsIn(s.queue) + [job]) == (s.started + JobsIn(s.queue)) + [job];
      case SendStop => InsertStop(s.queue);
    }
  }

  lemma {:induction false} NextInv(s: State, step: Step)
    requires Inv(s) && Enabled(s, step)
    ensures Inv(Next(s, step))
  {
    hide StopsFirst, RunningIn, ExitedIn, JobsIn, StopsIn, Insert, Accounted;
    match step {
      case Enqueue(_) => SendInv(s, step);
      case CallJoin =>
      case SendStop => SendInv(s, step);
      case Reap =>
      case Receive(w) => ReceiveInv(s, w);
      case Finish(w) => FinishInv(s, w);
    }
  }

  // ----- runs -----

  predicate Runnable(s: State, steps: seq<Step>)
    decreases |steps|
  {
    steps == [] || (Enabled(s, steps[0]) && Runnable(Next(s, steps[0]), steps[1..]))
  }

  function Exec(s: State, steps: seq<Step>): State
    requires Runnable(s, steps)
    decreases |steps|
  {
    if steps == [] then s else Exec(Next(s, steps[0]), steps[1..])
  }

  lemma {:induction false} ExecInv(s: State, steps: seq<Step>)
    requires Inv(s) && Runnable(s, steps)
    ensures Inv(Exec(s, steps))
    decreases |steps|
  {
    if steps == [] {
    } else {
      NextInv(s, steps[0]);
      ExecInv(Next(s, steps[0]), steps[1..]);
    }
  }

  lemma {:induction false} ExecFacts(s: State, steps: seq<Step>)
    requires Runnable(s, steps)
    ensures |Exec(s, steps).workers| == |s.workers|
    ensures s.enqueued <= Exec(s, steps).enqueued && s.started <= Exec(s, steps).started
    ensures StopsSent(s) == |s.workers| && !s.join.NotCalled? && !s.join.Sending? ==>
              !Exec(s, steps).join.NotCalled? && !Exec(s, steps).join.Sending?
    decreases |steps|
  {
    if steps == [] {
    } else {
      ExecFacts(Next(s, steps[0]), steps[1..]);
    }
  }

  function StopsThenJobs(stops: nat, jobs: seq<Job>): seq<Msg> {
    seq(stops, _ => Stop) + seq(|jobs|, i requires 0 <= i < |jobs| => Run(jobs[i]))
  }

  /** In every run of the pool jobs are begun in the order they were accepted:
      the jobs begun and then the jobs queued are the jobs accepted, and the
      queue is its STOPs and then its jobs. */
  lemma {:induction false} NothingLostOrReordered(n: nat, steps: seq<Step>)
    requires Runnable(Started(n), steps)
    ensures var s := Exec(Started(n), steps);
      && s.started + JobsIn(s.queue) == s.enqueued
      && multiset(s.started) == s.finished + RunningIn(s.workers)
      && s.queue == StopsThenJobs(StopsIn(s.queue), JobsIn(s.queue))
  {
    StartedInv(n);
    ExecInv(Started(n), steps);
    QueueShape(Exec(Started(n), steps).queue);
  }

  lemma {:induction false} QueueShape(q: seq<Msg>)
    requires StopsFirst(q)
    ensures q == StopsThenJobs(StopsIn(q), JobsIn(q))
  {
    if q == [] {
    } else {
      QueueShape(q[1..]);
      assert q == [q[0]] + q[1..];
      if q[0].Run? {
        NoStops(q);
      }
    }
  }

  // ----- room for jobs, and jobs at once -----

  function Enqueues(jobs: seq<Job>): seq<Step> {
    seq(|jobs|, k requires 0 <= k < |jobs| => Enqueue(jobs[k]))
  }

  lemma {:induction false} InsertSize(q: seq<Msg>, m: Msg)
    ensures |Insert(q, m)| == |q| + 1
  {
    var k := InsertPosition(q, m);
  }

  lemma {:induction false} RoomFor(s: State, jobs: seq<Job>)
    requires |s.queue| <= CAPACITY
    ensures Runnable(s, Enqueues(jobs)) <==> |s.queue| + |jobs| <= CAPACITY
    decreases |jobs|
  {
    hide Insert;
    if jobs == [] {
    } else {
      assert Enqueues(jobs)[1..] == Enqueues(jobs[1..]);
      if |s.queue| < CAPACITY {
        InsertSize(s.queue, Run(jobs[0]));
        RoomFor(Next(s, Enqueue(jobs[0])), jobs[1..]);
      }
    }
  }

  /** While no worker takes any, ten jobs are accepted and no more. */
  lemma {:induction false} TenJobsFit(n: nat, jobs: seq<Job>)
    ensures Runnable(Started(n), Enqueues(jobs)) <==> |jobs| <= 10
  {
    RoomFor(Started(n), jobs);
  }

  ghost predicate Distinct(ws: seq<nat>, n: nat) {
    && (forall k :: 0 <= k < |ws| ==> ws[k] < n)
    && (forall j, k :: 0 <= j < k < |ws| ==> ws[j] != ws[k])
  }

  /** Any waiting workers can be given a job each, so that all jobs run at once. */
  lemma {:induction false} TakeEach(s: State, jobs: seq<Job>, ws: seq<nat>) returns (steps: seq<Step>)
    requires s.queue == [] && |jobs| == |ws| && Distinct(ws, |s.workers|)
    requires forall k :: 0 <= k < |ws| ==> s.workers[ws[k]].Idle?
    ensures Runnable(s, steps) && Exec(s, steps).queue == [] && Exec(s, steps).started == s.started + jobs
    ensures |Exec(s, steps).workers| == |s.workers|
    ensures forall k :: 0 <= k < |ws| ==> Exec(s, steps).workers[ws[k]] == Running(jobs[k])
    ensures forall w :: 0 <= w < |s.workers| && w !in ws ==> Exec(s, steps).workers[w] == s.workers[w]
    decreases |jobs|
  {
    hide Enabled, Next, Insert;
    if jobs == [] {
      steps := [];
    } else {
      var job, w := jobs[0], ws[0];
      var s2 := Taken(s, job, w);
      var rest := TakeEach(s2, jobs[1..], ws[1..]);
      TakeTwo(s, job, w, rest);
      steps := [Enqueue(job)] + ([Receive(w)] + rest);
      assert s.started + jobs == (s.started + [job]) + jobs[1..];
      assert w !in ws[1..];
      Reindex(Exec(s, steps).workers, jobs, ws);
      forall v | 0 <= v < |s.workers| && v !in ws
        ensures Exec(s, steps).workers[v] == s.workers[v]
      {
        assert v != ws[0] && v !in ws[1..];
      }
    }
  }

  lemma {:induction false} Reindex(after: seq<Worker>, jobs: seq<Job>, ws: seq<nat>)
    requires |jobs| == |ws| > 0 && Distinct(ws, |after|) && after[ws[0]] == Running(jobs[0])
    requires forall k :: 0 <= k < |ws| - 1 ==> after[ws[1..][k]] == Running(jobs[1..][k])
    ensures forall k :: 0 <= k < |ws| ==> after[ws[k]] == Running(jobs[k])
  {
    forall k | 0 < k < |ws|
      ensures after[ws[k]] == Running(jobs[k])
    {
      assert ws[k] == ws[1..][k - 1] && jobs[k] == jobs[1..][k - 1];
    }
  }

  /** The state after worker `w` has taken a job out of an empty queue. */
  function Taken(s: State, job: Job, w: nat): State
    requires w < |s.workers|
  {
    s.(workers := s.workers[w := Running(job)], enqueued := s.enqueued + [job], started := s.started + [job])
  }

  lemma {:induction false} TakeTwo(s: State, job: Job, w: nat, rest: seq<Step>)
    requires s.queue == [] && w < |s.workers| && s.workers[w].Idle? && Runnable(Taken(s, job, w), rest)
    ensures var steps := [Enqueue(job)] + ([Receive(w)] + rest);
            Runnable(s, steps) && Exec(s, steps) == Exec(Taken(s, job, w), rest)
  {
    var s1 := Next(s, Enqueue(job));
    assert Next(s1, Receive(w)) == Taken(s, job, w);
    OneMoreStep(s1, Receive(w), rest);
    OneMoreStep(s, Enqueue(job), [Receive(w)] + rest);
  }

  /** As many jobs as there are workers run at once, each on the worker one likes. */
  lemma {:induction false} JobsAtOnce(n: nat, jobs: seq<Job>, ws: seq<nat>) returns (steps: seq<Step>)
    requires |jobs| == |ws| && Distinct(ws, n)
    ensures Runnable(Started(n), steps) && |Exec(Started(n), steps).workers| == n
    ensures forall k :: 0 <= k < |ws| ==> Exec(Started(n), steps).workers[ws[k]] == Running(jobs[k])
  {
    steps := TakeEach(Started(n), jobs, ws);
  }

  /** And they end in any order. */
  lemma {:induction false} FinishEach(s: State, ws: seq<nat>)
    requires Distinct(ws, |s.workers|) && forall k :: 0 <= k < |ws| ==> s.workers[ws[k]].Running?
    ensures var steps := seq(|ws|, k requires 0 <= k < |ws| => Finish(ws[k]));
      && Runnable(s, steps) && |Exec(s, steps).workers| == |s.workers|
      && forall k :: 0 <= k < |ws| ==> Exec(s, steps).workers[ws[k]].Idle?
    decreases |ws|
  {
    if ws == [] {
    } else {
      var steps := seq(|ws|, k requires 0 <= k < |ws| => Finish(ws[k]));
      var rest := seq(|ws| - 1, k requires 0 <= k < |ws| - 1 => Finish(ws[1..][k]));
      assert steps[1..] == rest;
      var s' := Next(s, Finish(ws[0]));
      FinishEach(s', ws[1..]);
      IdleStays(s', rest, ws[0]);
      forall k | 0 < k < |ws|
        ensures Exec(s, steps).workers[ws[k]].Idle?
      {
        assert ws[k] == ws[1..][k - 1];
      }
    }
  }

  lemma {:induction false} IdleStays(s: State, steps: seq<Step>, w: nat)
    requires Runnable(s, steps) && (forall step :: step in steps ==> step.Finish?)
    requires w < |s.workers| && s.workers[w].Idle?
    ensures w < |Exec(s, steps).workers| && Exec(s, steps).workers[w].Idle?
    decreases |steps|
  {
    if steps == [] {
    } else {
      assert steps[0] in steps;
      IdleStays(Next(s, steps[0]), steps[1..], w);
    }
  }

  // ----- join makes progress -----

  /** A step of join or of a worker that can be taken now. */
  lemma {:induction false} Progress(s: State) returns (step: Step)
    requires Inv(s) && !s.join.NotCalled? && !s.join.Returned?
    ensures Enabled(s, step) && !step.Enqueue? && !step.CallJoin?
  {
    if s.join.Sending? && |s.queue| < CAPACITY {
      return SendStop;
    }
    if s.join.Reaping? && s.workers[s.join.i].Exited? {
      return Reap;
    }
    var w: nat;
    if s.join.Sending? {
      w := LiveWorker(s.workers);
    } else {
      // the thread waited for is alive, so not every STOP has been consumed
      w := s.join.i;
      WorkerCounts(s.workers);
    }
    QueueSize(s.queue);
    step := if s.workers[w].Running? then Finish(w) else Receive(w);
  }

  /** What is left to do, weighted. */
  function Measure(s: State): nat
    requires Inv(s)
  {
    StopsBounded(s);
    (if s.join.NotCalled? then 1 else 0)
    + 3 * (|s.workers| - StopsSent(s)) + 2 * |s.queue| + |RunningIn(s.workers)| + (|s.workers| - Reaped(s))
  }

  lemma {:induction false} StopsBounded(s: State)
    requires Inv(s)
    ensures StopsSent(s) <= |s.workers| && Reaped(s) <= |s.workers|
    ensures |RunningIn(s.workers)| <= |s.workers|
  {
    WorkerCounts(s.workers);
  }

  /** Every step other than a client's enqueue leaves less to do. */
  lemma {:induction false} MeasureDecreases(s: State, step: Step)
    requires Inv(s) && Enabled(s, step) && !step.Enqueue?
    ensures Inv(Next(s, step)) && Measure(Next(s, step)) < Measure(s)
  {
    hide RunningIn, ExitedIn, Accounted, StopsFirst, AllExited, Insert, StopsIn, JobsIn;
    NextInv(s, step);
    match step {
      case CallJoin =>
      case SendStop => SendLength(s);
      case Reap =>
      case Receive(w) => UpdateWorker(s.workers, w, Next(s, step).workers[w]);
      case Finish(w) => UpdateWorker(s.workers, w, Idle);
    }
  }

  lemma {:induction false} SendLength(s: State)
    requires Inv(s) && Enabled(s, SendStop)
    ensures |Next(s, SendStop).queue| == |s.queue| + 1 && s.join.i < |s.workers|
  {
    InsertStop(s.queue);
  }

  lemma {:induction false} StepsBounded(s: State, steps: seq<Step>)
    requires Inv(s) && Runnable(s, steps)
    requires forall step :: step in steps ==> !step.Enqueue?
    ensures Inv(Exec(s, steps)) && |steps| + Measure(Exec(s, steps)) <= Measure(s)
    decreases |steps|
  {
    if steps == [] {
    } else {
      assert steps[0] in steps;
      MeasureDecreases(s, steps[0]);
      StepsBounded(Next(s, steps[0]), steps[1..]);
    }
  }

  /** Once clients have stopped enqueueing, join cannot be kept from returning:
      no run has more than 5n + 20 further steps, and a run that cannot be
      extended has returned. */
  lemma {:induction false} JoinTerminates(n: nat, before: seq<Step>, after: seq<Step>)
    requires Runnable(Started(n), before)
    requires Runnable(Exec(Started(n), before), after)
    requires !Exec(Started(n), before).join.NotCalled?
    requires forall step :: step in after ==> !step.Enqueue?
    ensures |after| <= 5 * n + 20
    ensures var s := Exec(Exec(Started(n), before), after);
            (forall step :: Enabled(s, step) ==> step.Enqueue?) ==> s.join.Returned?
  {
    StartedInv(n);
    ExecInv(Started(n), before);
    var s := Exec(Started(n), before);
    ExecFacts(Started(n), before);
    StepsBounded(s, after);
    StopsBounded(s);
    var t := Exec(s, after);
    NeverUncalled(s, after);
    if !t.join.Returned? {
      var step := Progress(t);
    }
  }

  lemma {:induction false} NeverUncalled(s: State, steps: seq<Step>)
    requires Runnable(s, steps) && !s.join.NotCalled?
    ensures !Exec(s, steps).join.NotCalled?
    decreases |steps|
  {
    if steps == [] {
    } else {
      NeverUncalled(Next(s, steps[0]), steps[1..]);
    }
  }

  /** From any state in which join has been called there is a way to its return. */
  lemma {:induction false} JoinCanReturn(s: State) returns (steps: seq<Step>)
    requires Inv(s) && !s.join.NotCalled?
    ensures Runnable(s, steps) && Exec(s, steps).join.Returned?
    ensures forall step :: step in steps ==> !step.Enqueue?
    decreases Measure(s)
  {
    if s.join.Returned? {
      return [];
    }
    var step := Progress(s);
    MeasureDecreases(s, step);
    var rest := JoinCanReturn(Next(s, step));
    steps := [step] + rest;
    assert steps[1..] == rest;
  }

  // ----- what join leaves behind -----

  lemma {:induction false} FrozenStep(s: State, step: Step)
    requires Inv(s) && (s.join.Reaping? || s.join.Returned?) && Enabled(s, step)
    ensures Next(s, step).started == s.started
    ensures Next(s, step).join.Reaping? || Next(s, step).join.Returned?
  {
    if step.Receive? && s.queue[0].Run? {
      // the receiver is alive, so a STOP is queued, and it would be in front
      NoStops(s.queue);
      WorkerCounts(s.workers);
    }
  }

  /** After the last STOP has been sent no further job is begun. */
  lemma {:induction false} NoStartAfterLastStop(s: State, steps: seq<Step>)
    requires Inv(s) && (s.join.Reaping? || s.join.Returned?) && Runnable(s, steps)
    ensures Exec(s, steps).started == s.started
    decreases |steps|
  {
    if steps == [] {
    } else {
      FrozenStep(s, steps[0]);
      NextInv(s, steps[0]);
      NoStartAfterLastStop(Next(s, steps[0]), steps[1..]);
    }
  }

  /** When join has returned every thread has exited, no STOP remains, every job
      begun is finished, and the jobs never begun are the last ones accepted. */
  lemma {:induction false} AfterJoin(n: nat, steps: seq<Step>)
    requires Runnable(Started(n), steps) && Exec(Started(n), steps).join.Returned?
    ensures var s := Exec(Started(n), steps);
      && (forall w :: 0 <= w < n ==> |s.workers| == n && s.workers[w] == Exited)
      && StopsIn(s.queue) == 0
      && s.finished == multiset(s.started)
      && s.started <= s.enqueued
      && JobsIn(s.queue) == s.enqueued[|s.started|..]
  {
    StartedInv(n);
    ExecInv(Started(n), steps);
    ExecFacts(Started(n), steps);
    var s := Exec(Started(n), steps);
    WorkerCounts(s.workers);
  }

  /** The jobs begun by the time of the last STOP decide: of all jobs accepted by
      the time join returns, all were run exactly when nothing else was accepted. */
  lemma {:induction false} LastStopDecides(n: nat, before: seq<Step>, after: seq<Step>)
    requires Runnable(Started(n), before)
    requires Runnable(Exec(Started(n), before), after)
    requires Exec(Started(n), before).join.Reaping?
    requires Exec(Exec(Started(n), before), after).join.Returned?
    ensures var s, t := Exec(Started(n), before), Exec(Exec(Started(n), before), after);
      t.finished == multiset(t.enqueued) <==> JobsIn(s.queue) == [] && t.enqueued == s.enqueued
  {
    hide StopsIn, StopsFirst, Next;
    StartedInv(n);
    ExecInv(Started(n), before);
    var s := Exec(Started(n), before);
    ExecInv(s, after);
    ExecFacts(Started(n), before);
    ExecFacts(s, after);
    NoStartAfterLastStop(s, after);
    var t := Exec(s, after);
    WorkerCounts(t.workers);
    assert t.finished == multiset(s.started);
    assert t.enqueued == s.enqueued + t.enqueued[|s.enqueued|..];
    var rest := JobsIn(s.queue) + t.enqueued[|s.enqueued|..];
    assert t.enqueued == s.started + rest;
    assert multiset(t.enqueued) == multiset(s.started) + multiset(rest);
    if t.finished == multiset(t.enqueued) {
      assert |multiset(rest)| == 0;
      assert rest == [];
    }
  }

  predicate NoEnqueue(steps: seq<Step>) {
    forall step :: step in steps ==> !step.Enqueue?
  }

  lemma {:induction false} EnqueuedKept(s: State, steps: seq<Step>)
    requires Runnable(s, steps) && NoEnqueue(steps)
    ensures Exec(s, steps).enqueued == s.enqueued
    decreases |steps|
  {
    if steps == [] {
    } else {
      assert steps[0] in steps;
      EnqueuedKept(Next(s, steps[0]), steps[1..]);
    }
  }

  lemma {:induction false} OneMoreStep(s: State, step: Step, rest: seq<Step>)
    requires Enabled(s, step) && Runnable(Next(s, step), rest)
    ensures Runnable(s, [step] + rest) && Exec(s, [step] + rest) == Exec(Next(s, step), rest)
    ensures NoEnqueue(rest) && !step.Enqueue? ==> NoEnqueue([step] + rest)
  {
    hide Next, Enabled;
    assert ([step] + rest)[1..] == rest;
  }

  lemma {:induction false} ExecMore(s: State, xs: seq<Step>, ys: seq<Step>)
    requires Runnable(s, xs) && Runnable(Exec(s, xs), ys)
    ensures Runnable(s, xs + ys) && Exec(s, xs + ys) == Exec(Exec(s, xs), ys)
    decreases |xs|
  {
    hide Next, Enabled;
    if xs == [] {
      assert xs + ys == ys;
    } else {
      ExecMore(Next(s, xs[0]), xs[1..], ys);
      assert (xs + ys)[1..] == xs[1..] + ys;
    }
  }

  /** A worker that has not exited can be brought to take the next message. */
  lemma {:induction false} CanTakeNext(s: State) returns (steps: seq<Step>, t: State)
    requires Inv(s) && s.queue != [] && ExitedIn(s.workers) < |s.workers|
    ensures Runnable(s, steps) && NoEnqueue(steps) && Exec(s, steps) == t && Inv(t)
    ensures t.queue == s.queue[1..] && t.join == s.join && |t.workers| == |s.workers|
  {
    hide Inv;
    var w := LiveWorker(s.workers);
    var take: seq<Step> := [];
    if s.workers[w].Idle? {
      NextInv(s, Receive(w));
      OneMoreStep(s, Receive(w), take);
      steps := [Receive(w)] + take;
      t := Next(s, Receive(w));
    } else {
      var s' := Next(s, Finish(w));
      NextInv(s, Finish(w));
      NextInv(s', Receive(w));
      t := Next(s', Receive(w));
      OneMoreStep(s', Receive(w), take);
      take := [Receive(w)] + take;
      OneMoreStep(s, Finish(w), take);
      steps := [Finish(w)] + take;
    }
  }

  /** Each STOP is taken as soon as it is sent, and no queued job is. */
  lemma {:induction false} LosingSends(s: State) returns (steps: seq<Step>)
    requires Inv(s) && s.join.Sending? && |s.queue| < CAPACITY && StopsIn(s.queue) == 0 && JobsIn(s.queue) != []
    ensures Runnable(s, steps) && NoEnqueue(steps)
    ensures Exec(s, steps).join.Reaping? && JobsIn(Exec(s, steps).queue) != []
    decreases |s.workers| - s.join.i
  {
    hide StopsFirst, Accounted, AllExited, RunningIn, ExitedIn;
    InsertStop(s.queue);
    QueueSize(s.queue);
    SendInv(s, SendStop);
    var s' := Next(s, SendStop);
    if s.join.i + 1 == |s.workers| {
      OneMoreStep(s, SendStop, []);
      steps := [SendStop] + [];
    } else {
      LosingHead(s.queue);
      var take, t := CanTakeNext(s');
      var rest := LosingSends(t);
      ExecMore(s', take, rest);
      OneMoreStep(s, SendStop, take + rest);
      steps := [SendStop] + (take + rest);
    }
  }

  /** The STOP stands before the jobs. */
  lemma {:induction false} LosingHead(q: seq<Msg>)
    requires StopsFirst(q) && StopsIn(q) == 0
    ensures Insert(q, Stop) != [] && Insert(q, Stop)[1..] == q
  {
    if q != [] {
      Dequeue(q);
      InsertStop(q);
    }
  }

  /** If a job is queued when join is called, a run in which it is never begun. */
  lemma {:induction false} LosingRun(s: State) returns (steps: seq<Step>)
    requires Inv(s) && s.join.NotCalled? && JobsIn(s.queue) != []
    ensures Runnable(s, steps) && NoEnqueue(steps)
    ensures Exec(s, steps).join.Returned? && Exec(s, steps).started != Exec(s, steps).enqueued
  {
    var called := Next(s, CallJoin);
    NextInv(s, CallJoin);
    if |s.workers| == 0 {
      OneMoreStep(s, CallJoin, []);
      steps := [CallJoin] + [];
    } else {
      var make := [];
      var room := called;
      QueueSize(called.queue);
      WorkerCounts(called.workers);
      if |called.queue| == CAPACITY {
        make, room := CanTakeNext(called);
        Dequeue(called.queue);
        QueueSize(room.queue);
      }
      var sends := LosingSends(room);
      var last := Exec(room, sends);
      ExecInv(room, sends);
      var reaps := JoinCanReturn(last);
      NoStartAfterLastStop(last, reaps);
      EnqueuedKept(last, reaps);
      ExecMore(room, sends, reaps);
      ExecMore(called, make, sends + reaps);
      OneMoreStep(s, CallJoin, make + (sends + reaps));
      steps := [CallJoin] + (make + (sends + reaps));
    }
  }

  /** Every run from `s` in which join returns has by then run all jobs accepted
      by the time of `s`. */
  ghost predicate NoneLost(s: State) {
    forall steps :: Runnable(s, steps) && Exec(s, steps).join.Returned? ==>
      multiset(s.enqueued) <= Exec(s, steps).finished
  }

  /** Join does not wait for queued jobs: all jobs accepted before the call are
      certain to be run exactly when the queue is empty at the call. */
  lemma {:induction false} AllJobsRunIff(n: nat, before: seq<Step>)
    requires Runnable(Started(n), before) && Exec(Started(n), before).join.NotCalled?
    ensures NoneLost(Exec(Started(n), before)) <==> Exec(Started(n), before).queue == []
  {
    var s := Exec(Started(n), before);
    StartedInv(n);
    ExecInv(Started(n), before);
    QueueSize(s.queue);
    if s.queue == [] {
      forall steps | Runnable(s, steps) && Exec(s, steps).join.Returned?
        ensures multiset(s.enqueued) <= Exec(s, steps).finished
      {
        EmptyQueueWins(s, steps);
      }
    } else {
      var steps := LosingRun(s);
      EnqueuedKept(s, steps);
      LateJobsLost(s, steps);
    }
  }

  lemma {:induction false} EmptyQueueWins(s: State, steps: seq<Step>)
    requires Inv(s) && s.queue == [] && Runnable(s, steps) && Exec(s, steps).join.Returned?
    ensures multiset(s.enqueued) <= Exec(s, steps).finished
  {
    hide StopsIn, ExitedIn, StopsFirst, RunningIn, Next, Enabled;
    var t := Exec(s, steps);
    ExecInv(s, steps);
    ExecFacts(s, steps);
    EndOfJoin(t);
    assert s.started + [] == s.enqueued;
    assert t.started == s.started + t.started[|s.started|..];
  }

  lemma {:induction false} LateJobsLost(s: State, steps: seq<Step>)
    requires Inv(s) && Runnable(s, steps) && Exec(s, steps).join.Returned?
    requires Exec(s, steps).enqueued == s.enqueued && Exec(s, steps).started != s.enqueued
    ensures !(multiset(s.enqueued) <= Exec(s, steps).finished)
  {
    hide StopsIn, ExitedIn, StopsFirst, RunningIn, Next, Enabled;
    var t := Exec(s, steps);
    ExecInv(s, steps);
    EndOfJoin(t);
    assert JobsIn(t.queue) != [] by {
      assert t.started + [] == t.started;
    }
    assert |t.started| < |s.enqueued|;
    if multiset(s.enqueued) <= t.finished {
      SmallerBag(multiset(s.enqueued), t.finished);
    }
  }

  lemma {:induction false} SmallerBag(a: multiset<Job>, b: multiset<Job>)
    requires a <= b
    ensures |a| <= |b|
  {
    assert b == a + (b - a);
  }

  lemma {:induction false} EndOfJoin(s: State)
    requires Inv(s) && s.join.Returned?
    ensures s.finished == multiset(s.started)
  {
    WorkerCounts(s.workers);
  }

  /** One thread, one job accepted while the thread is idle, then join: the STOP
      overtakes the job, which is never run. */
  lemma {:induction false} StopOvertakesJob(job: Job)
    ensures var steps := [Enqueue(job), CallJoin, SendStop, Receive(0), Reap];
      && Runnable(Started(1), steps)
      && Exec(Started(1), steps).join.Returned?
      && Exec(Started(1), steps).started == []
      && Exec(Started(1), steps).enqueued == [job]
  {
    var s0 := Started(1);
    var s1 := Next(s0, Enqueue(job));
    assert s1.queue == [Run(job)];
    var s2 := Next(s1, CallJoin);
    var s3 := Next(s2, SendStop);
    assert s3.queue == [Stop, Run(job)];
    var s4 := Next(s3, Receive(0));
    var s5 := Next(s4, Reap);
    assert Runnable(s4, [Reap]) && Exec(s4, [Reap]) == s5;
    assert [Receive(0), Reap][1..] == [Reap];
    assert Runnable(s3, [Receive(0), Reap]) && Exec(s3, [Receive(0), Reap]) == s5;
    assert [SendStop, Receive(0), Reap][1..] == [Receive(0), Reap];
    assert Runnable(s2, [SendStop, Receive(0), Reap]) && Exec(s2, [SendStop, Receive(0), Reap]) == s5;
    assert [CallJoin, SendStop, Receive(0), Reap][1..] == [SendStop, Receive(0), Reap];
    assert Runnable(s1, [CallJoin, SendStop, Receive(0), Reap]);
    assert [Enqueue(job), CallJoin, SendStop, Receive(0), Reap][1..] == [CallJoin, SendStop, Receive(0), Reap];
  }

  /** What is left once the last STOP has been sent. A client's enqueue uses up a
      free place; taking a STOP frees one, so a STOP weighs more than two. */
  function TailMeasure(s: State): nat
    requires Inv(s)
  {
    StopsBounded(s);
    3 * StopsIn(s.queue) + |RunningIn(s.workers)| + (|s.workers| - Reaped(s)) + (CAPACITY - |s.queue|)
  }

  lemma {:induction false} TailDecreases(s: State, step: Step)
    requires Inv(s) && (s.join.Reaping? || s.join.Returned?) && Enabled(s, step)
    ensures Inv(Next(s, step)) && TailMeasure(Next(s, step)) < TailMeasure(s)
  {
    hide RunningIn, ExitedIn, Accounted, StopsFirst, AllExited;
    NextInv(s, step);
    FrozenStep(s, step);
    match step {
      case Enqueue(job) => InsertJob(s.queue, job);
      case Reap =>
      case Receive(w) => UpdateWorker(s.workers, w, Next(s, step).workers[w]);
      case Finish(w) => UpdateWorker(s.workers, w, Idle);
    }
  }

  lemma {:induction false} TailBounded(s: State, steps: seq<Step>)
    requires Inv(s) && (s.join.Reaping? || s.join.Returned?) && Runnable(s, steps)
    ensures Inv(Exec(s, steps)) && |steps| + TailMeasure(Exec(s, steps)) <= TailMeasure(s)
    decreases |steps|
  {
    if steps == [] {
    } else {
      TailDecreases(s, steps[0]);
      FrozenStep(s, steps[0]);
      TailBounded(Next(s, steps[0]), steps[1..]);
    }
  }

  /** After the last STOP not even clients that go on enqueueing can keep join
      from returning: no run has more than 5n + 10 further steps of any kind, and
      a run that cannot be extended but by an enqueue has returned. */
  lemma {:induction false} JoinTerminatesRegardless(n: nat, before: seq<Step>, after: seq<Step>)
    requires Runnable(Started(n), before)
    requires Runnable(Exec(Started(n), before), after)
    requires Exec(Started(n), before).join.Reaping?
    ensures |after| <= 5 * n + 10
    ensures var s := Exec(Exec(Started(n), before), after);
            (forall step :: Enabled(s, step) ==> step.Enqueue?) ==> s.join.Returned?
  {
    StartedInv(n);
    ExecInv(Started(n), before);
    var s := Exec(Started(n), before);
    ExecFacts(Started(n), before);
    TailBounded(s, after);
    StopsBounded(s);
    WorkerCounts(s.workers);
    var t := Exec(s, after);
    NeverUncalled(s, after);
    if !t.join.Returned? {
      var step := Progress(t);
    }
  }

  /** While join is still sending, a step that leaves it where it is: a client takes
      the free place, or a worker goes on. */
  lemma {:induction false} StepBeside(s: State) returns (step: Step)
    requires Inv(s) && s.join.Sending?
    ensures Enabled(s, step) && Next(s, step).join == s.join
  {
    if |s.queue| < CAPACITY {
      return Enqueue(Job(0, 0));
    }
    var w := LiveWorker(s.workers);
    step := if s.workers[w].Running? then Finish(w) else Receive(w);
  }

  lemma {:induction false} Stalled(s: State, k: nat) returns (steps: seq<Step>)
    requires Inv(s) && s.join.Sending?
    ensures Runnable(s, steps) && |steps| == k && Exec(s, steps).join == s.join
    decreases k
  {
    if k == 0 {
      return [];
    }
    var step := StepBeside(s);
    NextInv(s, step);
    var rest := Stalled(Next(s, step), k - 1);
    OneMoreStep(s, step, rest);
    steps := [step] + rest;
  }

  /** No run from `s`, enqueues included, has more than `b` steps. */
  ghost predicate RunsEndBy(s: State, b: nat) {
    forall after :: Runnable(s, after) ==> |after| <= b
  }

  /** Clients that go on enqueueing can keep join from returning for any number of
      steps exactly until its last STOP is sent. */
  lemma {:induction false} BoundedIff(n: nat, before: seq<Step>)
    requires Runnable(Started(n), before) && !Exec(Started(n), before).join.NotCalled?
    ensures var s := Exec(Started(n), before);
            (exists b :: RunsEndBy(s, b)) <==> s.join.Reaping? || s.join.Returned?
  {
    StartedInv(n);
    ExecInv(Started(n), before);
    var s := Exec(Started(n), before);
    if s.join.Sending? {
      forall b: nat
        ensures !RunsEndBy(s, b)
      {
        var steps := Stalled(s, b + 1);
      }
    } else {
      forall after | Runnable(s, after)
        ensures |after| <= TailMeasure(s)
      {
        TailBounded(s, after);
      }
      assert RunsEndBy(s, TailMeasure(s));
    }
  }

  // ----- the object -----

  /** ae_threadpool_t with the threads and the caller of join. Each method is one
      stretch of the C code between two calls that may block; what it requires is
      that the call it begins with returns. */
  class ThreadPool {
    var workers: seq<Worker>
    var queue: seq<Msg>
    var join: Join
    ghost var enqueued: seq<Job>
    ghost var started: seq<Job>
    ghost var finished: multiset<Job>

    ghost function Now(): State
      reads this
    {
      State(workers, queue, join, enqueued, started, finished)
    }

    constructor (nThreads: nat)
      ensures Now() == Started(nThreads) && Inv(Now())
    {
      workers, queue, join := [], [], NotCalled;
      enqueued, started, finished := [], [], multiset{};
      new;
      Start(nThreads);
      StartedInv(nThreads);
    }

    /** ae_threadpool_start: one thread after the other. */
    method Start(nThreads: nat)
      requires workers == []
      modifies this`workers
      ensures workers == seq(nThreads, _ => Idle)
    {
      for i := 0 to nThreads
        invariant workers == seq(i, _ => Idle)
      {
        workers := workers + [Idle];
      }
    }

    /** ae_threadpool_send: mq_send has found room. The message is behind all of
        the same or a higher priority that no lower one precedes, and in front of
        the first of a lower priority. */
    method Send(msg: Msg)
      requires |queue| < CAPACITY
      modifies this`queue
      ensures exists k :: 0 <= k <= |old(queue)| && queue == old(queue)[..k] + [msg] + old(queue)[k..]
                          && (forall j :: 0 <= j < k ==> Priority(old(queue)[j]) >= Priority(msg))
                          && (k < |old(queue)| ==> Priority(old(queue)[k]) < Priority(msg))
      ensures queue == Insert(old(queue), msg)
    {
      ghost var k := InsertPosition(queue, msg);
      queue := Insert(queue, msg);
      assert PutAt(old(queue), msg, queue, k);
    }

    method Enque(job: Job)
      requires Inv(Now()) && Enabled(Now(), Enqueue(job))
      modifies this`queue, this`enqueued
      ensures Inv(Now()) && Now() == Next(old(Now()), Enqueue(job))
    {
      hide Inv, Insert;
      NextInv(Now(), Enqueue(job));
      Send(Run(job));
      enqueued := enqueued + [job];
    }

    /** The head of the first loop of ae_threadpool_join. */
    method JoinCalled()
      requires Inv(Now()) && Enabled(Now(), CallJoin)
      modifies this`join
      ensures Inv(Now()) && Now() == Next(old(Now()), CallJoin)
    {
      hide Inv, Insert;
      NextInv(Now(), CallJoin);
      join := if |workers| == 0 then Returned else Sending(0);
    }

    /** The body of the first loop, and the head of the loop that follows. */
    method JoinSendsStop()
      requires Inv(Now()) && Enabled(Now(), SendStop)
      modifies this`queue, this`join
      ensures Inv(Now()) && Now() == Next(old(Now()), SendStop)
    {
      hide Inv, Insert;
      NextInv(Now(), SendStop);
      Send(Stop);
      var i := join.i + 1;
      join := if i < |workers| then Sending(i) else Reaping(0);
    }

    /** The body of the second loop: the thread waited for has exited. */
    method JoinReaps()
      requires Inv(Now()) && Enabled(Now(), Reap)
      modifies this`join
      ensures Inv(Now()) && Now() == Next(old(Now()), Reap)
    {
      hide Inv, Insert;
      NextInv(Now(), Reap);
      var i := join.i + 1;
      join := if i < |workers| then Reaping(i) else Returned;
    }

    /** ae_threadpool_run: a message has come, and the switch on its type. */
    method WorkerReceives(w: nat)
      requires Inv(Now()) && Enabled(Now(), Receive(w))
      modifies this`workers, this`queue, this`started
      ensures Inv(Now()) && Now() == Next(old(Now()), Receive(w))
    {
      hide Inv, Insert;
      NextInv(Now(), Receive(w));
      var msg := queue[0];
      queue := queue[1..];
      match msg {
        case Run(job) =>
          workers := workers[w := Running(job)];
          started := started + [job];
        case Stop =>
          workers := workers[w := Exited];
      }
    }

    /** ae_threadpool_run: the job has returned, back to the head of the loop. */
    method WorkerFinishes(w: nat)
      requires Inv(Now()) && Enabled(Now(), Finish(w))
      modifies this`workers, this`finished
      ensures Inv(Now()) && Now() == Next(old(Now()), Finish(w))
    {
      hide Inv, Insert;
      NextInv(Now(), Finish(w));
      finished := finished + multiset{workers[w].job};
      workers := workers[w := Idle];
    }
  }
}
