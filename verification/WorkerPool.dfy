/** The worker pool: goroutines and channels as interleaved steps. */
module WorkerPool {
  import opened Sequences

  type JobId = int
  type Response = int

  /** Where a worker's goroutine stands: about to send its channel to the pool, with its channel
      in the pool, with its channel taken by the goroutine of one job, or running a job. */
  datatype Worker = Registering | Pooled | Held(job: JobId) | Running(job: JobId)

  /** The pool channel holds worker numbers in order. `waiting` are the goroutines of accepted
      jobs that have no worker yet. `channel` holds the values in the response channels, each of
      which has room for one. `runs` and `sent` count the runs and the responses of every job. */
  datatype State = State(
    max: nat, workers: seq<Worker>, pool: seq<nat>, accepted: set<JobId>, waiting: set<JobId>,
    runs: map<JobId, nat>, sent: map<JobId, nat>, channel: map<JobId, Response>)

  datatype Step =
    | Accept(job: JobId)                      // the dispatch loop receives a job from the queue
    | Register(worker: nat)                   // a worker sends its channel to the pool
    | Take(job: JobId)                        // a job's goroutine receives from the pool
    | Deliver(worker: nat)                    // and sends its job to the worker
    | Finish(worker: nat, value: Response)    // the worker's handler is done and responds
    | Receive(job: JobId)                     // the requester reads the response

  function Init(max: nat): State {
    State(max, seq(max, _ => Registering), [], {}, {}, map[], map[], map[])
  }

  predicate Enabled(s: State, step: Step) {
    match step
    case Accept(j) => j !in s.accepted
    case Register(w) => w < |s.workers| && s.workers[w] == Registering && |s.pool| < s.max
    case Take(j) => j in s.waiting && s.pool != [] && s.pool[0] < |s.workers|
    case Deliver(w) => w < |s.workers| && s.workers[w].Held? && s.workers[w].job in s.runs
    case Finish(w, _) =>
      && w < |s.workers| && s.workers[w].Running?
      && s.workers[w].job in s.sent && s.workers[w].job !in s.channel
    case Receive(j) => j in s.channel
  }

  function Apply(s: State, step: Step): State
    requires Enabled(s, step)
  {
    match step
    case Accept(j) =>
      s.(accepted := s.accepted + {j}, waiting := s.waiting + {j}, runs := s.runs[j := 0], sent := s.sent[j := 0])
    case Register(w) => s.(workers := s.workers[w := Pooled], pool := s.pool + [w])
    case Take(j) =>
      s.(workers := s.workers[s.pool[0] := Held(j)], pool := s.pool[1..], waiting := s.waiting - {j})
    case Deliver(w) =>
      var j := s.workers[w].job;
      s.(workers := s.workers[w := Running(j)], runs := s.runs[j := s.runs[j] + 1])
    case Finish(w, v) =>
      var j := s.workers[w].job;
      s.(workers := s.workers[w := Registering], sent := s.sent[j := s.sent[j] + 1], channel := s.channel[j := v])
    case Receive(j) => s.(channel := s.channel - {j})
  }

  /** `t` is reached from `s` by the given steps, in any interleaving they allow. */
  predicate Reaches(s: State, steps: seq<Step>, t: State)
    decreases |steps|
  {
    if steps == [] then s == t
    else Enabled(s, steps[0]) && Reaches(Apply(s, steps[0]), steps[1..], t)
  }

  // ----- the invariant ------------------------------------------------------------------

  predicate HasJob(w: Worker, j: JobId) { (w.Held? || w.Running?) && w.job == j }

  predicate WithWorker(s: State, j: JobId) {
    exists w :: 0 <= w < |s.workers| && HasJob(s.workers[w], j)
  }

  /** A worker's channel is in the pool once if the worker is pooled and not otherwise. */
  predicate PoolOk(s: State) {
    && |s.workers| == s.max
    && (forall i :: 0 <= i < |s.pool| ==> s.pool[i] < s.max && s.workers[s.pool[i]] == Pooled)
    && (forall i, k :: 0 <= i < k < |s.pool| ==> s.pool[i] != s.pool[k])
    && (forall w :: 0 <= w < s.max && s.workers[w] == Pooled ==> w in s.pool)
  }

  /** Every accepted job is waiting, or with one worker, or answered, and only one of these;
      it has run at most once and been answered at most once. */
  predicate JobsOk(s: State) { Known(s) && WorkersOk(s) && AnswersOk(s) && NoneLost(s) }

  predicate Known(s: State) {
    && s.runs.Keys == s.accepted && s.sent.Keys == s.accepted
    && s.waiting <= s.accepted && s.channel.Keys <= s.accepted
  }

  predicate WorkersOk(s: State)
    requires Known(s)
  {
    && (forall w :: 0 <= w < |s.workers| && (s.workers[w].Held? || s.workers[w].Running?) ==>
          var j := s.workers[w].job;
          && j in s.accepted && j !in s.waiting && s.sent[j] == 0
          && s.runs[j] == (if s.workers[w].Held? then 0 else 1))
    && (forall w, v :: 0 <= w < v < |s.workers| && (s.workers[w].Held? || s.workers[w].Running?) ==>
          !HasJob(s.workers[v], s.workers[w].job))
  }

  predicate AnswersOk(s: State)
    requires Known(s)
  {
    && (forall j :: j in s.waiting ==> s.runs[j] == s.sent[j] == 0)
    && (forall j :: j in s.accepted && s.sent[j] != 0 ==> s.sent[j] == s.runs[j] == 1 && s.max > 0)
    && (forall j :: j in s.channel ==> s.sent[j] == 1)
  }

  predicate NoneLost(s: State)
    requires Known(s)
  {
    forall j :: j in s.accepted && s.sent[j] == 0 && j !in s.waiting ==> WithWorker(s, j)
  }

  predicate Inv(s: State) { PoolOk(s) && JobsOk(s) }

  lemma PoolStays(s: State, t: State)
    requires PoolOk(s) && t.max == s.max && t.pool == s.pool && |t.workers| == |s.workers|
    requires forall w :: 0 <= w < |s.workers| ==> (t.workers[w] == Pooled <==> s.workers[w] == Pooled)
    ensures PoolOk(t)
  {
  }

  lemma PoolGains(s: State, t: State, w: nat)
    requires PoolOk(s) && t.max == s.max && w < |s.workers| && s.workers[w] != Pooled
    requires t.workers == s.workers[w := Pooled] && t.pool == s.pool + [w]
    ensures PoolOk(t)
  {
    assert w in t.pool;
    forall v | 0 <= v < t.max && t.workers[v] == Pooled
      ensures v in t.pool
    {
      assert v != w ==> v in s.pool;
    }
  }

  lemma PoolLoses(s: State, t: State, x: Worker)
    requires PoolOk(s) && t.max == s.max && s.pool != [] && s.pool[0] < |s.workers| && x != Pooled
    requires t.workers == s.workers[s.pool[0] := x] && t.pool == s.pool[1..]
    ensures PoolOk(t)
  {
    assert s.pool == [s.pool[0]] + t.pool;
    forall v | 0 <= v < t.max && t.workers[v] == Pooled
      ensures v in t.pool
    {
      assert v in s.pool && v != s.pool[0];
    }
  }

  lemma StepKeepsPool(s: State, step: Step)
    requires Inv(s) && Enabled(s, step)
    ensures PoolOk(Apply(s, step))
  {
    hide PoolOk, JobsOk;
    var t := Apply(s, step);
    match step {
      case Register(w) => PoolGains(s, t, w);
      case Take(j) => PoolLoses(s, t, Held(j));
      case _ => PoolStays(s, t);
    }
  }

  /** No accepted job is lost: one that has not been answered is waiting or with a worker. */
  lemma StepLosesNone(s: State, step: Step)
    requires Inv(s) && Enabled(s, step)
    ensures Known(Apply(s, step)) && NoneLost(Apply(s, step))
  {
    var t := Apply(s, step);
    forall j | j in t.accepted && t.sent[j] == 0 && j !in t.waiting
      ensures WithWorker(t, j)
    {
      if step.Take? && step.job == j {
        assert HasJob(t.workers[s.pool[0]], j);
      } else {
        assert WithWorker(s, j);
        var w :| 0 <= w < |s.workers| && HasJob(s.workers[w], j);
        assert HasJob(t.workers[w], j);
      }
    }
  }

  lemma StepKeepsWorkers(s: State, step: Step)
    requires Inv(s) && Enabled(s, step)
    ensures Known(Apply(s, step)) && WorkersOk(Apply(s, step))
  {
    hide NoneLost;
  }

  lemma StepKeepsAnswers(s: State, step: Step)
    requires Inv(s) && Enabled(s, step)
    ensures Known(Apply(s, step)) && AnswersOk(Apply(s, step))
  {
    hide NoneLost;
  }

  lemma StepKeepsJobs(s: State, step: Step)
    requires Inv(s) && Enabled(s, step)
    ensures JobsOk(Apply(s, step))
  {
    hide Inv, Apply, Enabled, Known, WorkersOk, AnswersOk, NoneLost;
    StepKeepsWorkers(s, step);
    StepKeepsAnswers(s, step);
    StepLosesNone(s, step);
  }

  lemma StepKeepsInv(s: State, step: Step)
    requires Inv(s) && Enabled(s, step)
    ensures Inv(Apply(s, step))
  {
    hide PoolOk, JobsOk, Apply, Enabled;
    StepKeepsPool(s, step);
    StepKeepsJobs(s, step);
  }

  /** Every interleaving keeps the invariant. */
  lemma {:induction false} ReachableOk(s: State, steps: seq<Step>, t: State)
    requires Inv(s) && Reaches(s, steps, t)
    ensures Inv(t)
    decreases |steps|
  {
    if steps != [] {
      StepKeepsInv(s, steps[0]);
      ReachableOk(Apply(s, steps[0]), steps[1..], t);
    }
  }

  lemma InitOk(max: nat)
    ensures Inv(Init(max))
  {
  }

  // ----- nothing blocks that should not ------------------------------------------------

  lemma {:induction false} Pigeonhole(p: seq<nat>, n: nat)
    requires Distinct(p) && forall i :: 0 <= i < |p| ==> p[i] < n
    ensures |p| <= n
  {
    if p != [] {
      assert p[0] < n;
      if n - 1 in p {
        var i :| 0 <= i < |p| && p[i] == n - 1;
        Pigeonhole(p[..i] + p[i + 1..], n - 1);
      } else {
        Pigeonhole(p, n - 1);
      }
    }
  }

  /** The pool channel has room for every worker: it never holds more than `max` channels, a
      worker that wants to register always can, and a worker that is done can always respond. */
  lemma NeverBlocks(s: State, w: nat, value: Response)
    requires Inv(s) && w < s.max
    ensures |s.pool| <= s.max
    ensures s.workers[w] == Registering ==> Enabled(s, Register(w))
    ensures s.workers[w].Held? ==> Enabled(s, Deliver(w))
    ensures s.workers[w].Running? ==> Enabled(s, Finish(w, value))
  {
    Pigeonhole(s.pool, s.max);
    if s.workers[w] == Registering {
      assert w !in s.pool;
      Pigeonhole(s.pool + [w], s.max);
    }
  }

  // ----- how long a run can be ---------------------------------------------------------

  /** The steps that a worker has still to make before it is in the pool again. */
  function Weight(w: Worker): nat {
    match w
    case Registering => 1
    case Pooled => 0
    case Held(_) => 4
    case Running(_) => 3
  }

  function Work(ws: seq<Worker>): nat {
    if ws == [] then 0 else Weight(ws[0]) + Work(ws[1..])
  }

  lemma {:induction false} WorkUpdate(ws: seq<Worker>, w: nat, x: Worker)
    requires w < |ws|
    ensures Work(ws[w := x]) + Weight(ws[w]) == Work(ws) + Weight(x)
  {
    if w == 0 {
      assert ws[0 := x][1..] == ws[1..];
    } else {
      assert ws[w := x][1..] == ws[1..][w - 1 := x];
      WorkUpdate(ws[1..], w - 1, x);
    }
  }

  lemma {:induction false} WorkOfIdle(n: nat)
    ensures Work(seq(n, _ => Registering)) == n
  {
    if n != 0 {
      var ws := seq(n, _ => Registering);
      assert ws[1..] == seq(n - 1, _ => Registering);
      WorkOfIdle(n - 1);
    }
  }

  /** The steps still to be made for the jobs accepted so far. */
  function Pending(s: State): nat { 5 * |s.waiting| + Work(s.workers) + |s.channel| }

  function Accepts(steps: seq<Step>): nat {
    if steps == [] then 0 else (if steps[0].Accept? then 1 else 0) + Accepts(steps[1..])
  }

  lemma MapWithout(m: map<JobId, Response>, j: JobId)
    requires j in m
    ensures |m - {j}| == |m| - 1
  {
    assert (m - {j}).Keys == m.Keys - {j};
  }

  lemma MapWith(m: map<JobId, Response>, j: JobId, v: Response)
    requires j !in m
    ensures |m[j := v]| == |m| + 1
  {
    assert m[j := v].Keys == m.Keys + {j};
  }

  lemma WaitingAccepted(s: State)
    requires Inv(s)
    ensures s.waiting <= s.accepted
  {
  }

  lemma PooledFront(s: State)
    requires Inv(s) && s.pool != []
    ensures s.pool[0] < |s.workers| && s.workers[s.pool[0]] == Pooled
  {
  }

  lemma SetWith(a: set<JobId>, j: JobId)
    requires j !in a
    ensures |a + {j}| == |a| + 1
  {
  }

  lemma SetWithout(a: set<JobId>, j: JobId)
    requires j in a
    ensures |a - {j}| == |a| - 1
  {
  }

  /** What is pending after a step of a worker. */
  lemma WorkerCosts(s: State, t: State, w: nat, x: Worker)
    requires w < |s.workers| && t.workers == s.workers[w := x]
    ensures Pending(t) == Pending(s) + Weight(x) - Weight(s.workers[w])
                          + 5 * (|t.waiting| - |s.waiting|) + |t.channel| - |s.channel|
  {
    hide Work, Weight;
    WorkUpdate(s.workers, w, x);
  }

  lemma QueueCosts(s: State, t: State)
    requires t.workers == s.workers
    ensures Pending(t) == Pending(s) + 5 * (|t.waiting| - |s.waiting|) + |t.channel| - |s.channel|
  {
  }

  /** Accepting a job adds five steps to make; every other step is one of those. */
  lemma StepCosts(s: State, step: Step)
    requires Inv(s) && Enabled(s, step)
    ensures Pending(Apply(s, step)) == if step.Accept? then Pending(s) + 5 else Pending(s) - 1
  {
    hide Inv, PoolOk, JobsOk, Work, Pending;
    var t := Apply(s, step);
    match step {
      case Accept(j) =>
        WaitingAccepted(s);
        SetWith(s.waiting, j);
        QueueCosts(s, t);
      case Register(w) => WorkerCosts(s, t, w, Pooled);
      case Take(j) =>
        PooledFront(s);
        SetWithout(s.waiting, j);
        WorkerCosts(s, t, s.pool[0], Held(j));
      case Deliver(w) => WorkerCosts(s, t, w, Running(s.workers[w].job));
      case Finish(w, v) =>
        MapWith(s.channel, s.workers[w].job, v);
        WorkerCosts(s, t, w, Registering);
      case Receive(j) =>
        MapWithout(s.channel, j);
        QueueCosts(s, t);
    }
  }

  lemma StepAccepts(s: State, step: Step)
    requires Enabled(s, step)
    ensures |Apply(s, step).accepted| == |s.accepted| + (if step.Accept? then 1 else 0)
    ensures Apply(s, step).max == s.max
  {
  }

  /** The length of every run is accounted for: one step for each worker's first registration,
      six for each accepted job, less what is still pending. So no run goes on without new jobs. */
  lemma {:induction false} RunLength(s: State, steps: seq<Step>, t: State)
    requires Inv(s) && Reaches(s, steps, t)
    ensures Pending(s) + 6 * Accepts(steps) == Pending(t) + |steps|
    ensures |t.accepted| == |s.accepted| + Accepts(steps)
    ensures t.max == s.max
    decreases |steps|
  {
    hide Inv, Pending, Apply, Enabled;
    if steps != [] {
      var u := Apply(s, steps[0]);
      StepCosts(s, steps[0]);
      StepKeepsInv(s, steps[0]);
      StepAccepts(s, steps[0]);
      RunLength(u, steps[1..], t);
    }
  }

  // ----- what a run leaves when it cannot go on ---------------------------------------

  /** The pool itself is stuck: only a new job could come, or a requester read its response
      (nobody reads the response of a job that was pushed). */
  ghost predicate Quiet(s: State) {
    forall step: Step :: Enabled(s, step) ==> step.Accept? || step.Receive?
  }

  lemma QuietWorkers(s: State)
    requires Inv(s) && Quiet(s)
    ensures forall w :: 0 <= w < |s.workers| ==> s.workers[w] == Pooled
    ensures s.max > 0 ==> s.waiting == {}
  {
    forall w | 0 <= w < |s.workers|
      ensures s.workers[w] == Pooled
    {
      NeverBlocks(s, w, 0);
      assert !Enabled(s, Register(w)) && !Enabled(s, Deliver(w)) && !Enabled(s, Finish(w, 0));
    }
    if s.max > 0 {
      assert s.workers[0] == Pooled;
      forall j
        ensures j !in s.waiting
      {
        assert j in s.waiting ==> Enabled(s, Take(j));
      }
    }
  }

  lemma {:induction false} WorkOfPooled(ws: seq<Worker>)
    requires forall w :: 0 <= w < |ws| ==> ws[w] == Pooled
    ensures Work(ws) == 0
  {
    if ws != [] {
      WorkOfPooled(ws[1..]);
    }
  }

  lemma JobCounts(s: State, j: JobId)
    requires Inv(s) && j in s.accepted
    ensures s.sent[j] <= s.runs[j] <= 1
  {
    if s.sent[j] == 0 && j !in s.waiting {
      assert WithWorker(s, j);
      var w :| 0 <= w < |s.workers| && HasJob(s.workers[w], j);
      assert s.workers[w].Held? || s.workers[w].Running?;
    }
  }

  lemma QuietServes(s: State, j: JobId)
    requires Inv(s) && Quiet(s) && j in s.accepted
    ensures s.runs[j] == s.sent[j] == 1 && j !in s.waiting <==> s.max > 0
  {
    QuietWorkers(s);
    assert !WithWorker(s, j);
  }

  /** A run from the start, however its steps are interleaved. Every job runs at most once and
      gets at most one response. If the pool is stuck then every accepted job has been run
      and answered exactly once, unless the pool was made without workers, in which case no
      accepted job is ever served. */
  lemma RunsServe(max: nat, steps: seq<Step>, t: State)
    requires Reaches(Init(max), steps, t)
    ensures Inv(t)
    ensures forall j :: j in t.accepted ==> t.sent[j] <= t.runs[j] <= 1
    ensures |steps| + Pending(t) == max + 6 * |t.accepted|
    ensures Quiet(t) ==>
      ((forall j :: j in t.accepted ==> t.runs[j] == t.sent[j] == 1 && j !in t.waiting)
       <==> max > 0 || t.accepted == {})
    ensures Quiet(t) && max > 0 ==> |steps| + |t.channel| == max + 6 * |t.accepted|
  {
    hide PoolOk, Quiet, Reaches;
    InitOk(max);
    WorkOfIdle(max);
    ReachableOk(Init(max), steps, t);
    RunLength(Init(max), steps, t);
    forall j | j in t.accepted
      ensures t.sent[j] <= t.runs[j] <= 1
    {
      JobCounts(t, j);
    }
    if Quiet(t) {
      QuietWorkers(t);
      WorkOfPooled(t.workers);
      forall j | j in t.accepted
        ensures t.runs[j] == t.sent[j] == 1 && j !in t.waiting <==> max > 0
      {
        QuietServes(t, j);
      }
      if max == 0 && forall j :: j in t.accepted ==> t.runs[j] == t.sent[j] == 1 && j !in t.waiting {
        assert forall j :: j !in t.accepted;
      }
    }
  }
}
