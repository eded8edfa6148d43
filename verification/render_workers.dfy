/**
 * The CPU ray tracer's worker threads. `Render` publishes the job count in
 * `NumRenderJobs`; each worker claims a job with an atomic decrement,
 * renders it, and the worker that rendered job 0 sets `FinishEvent`. A
 * schedule is any interleaving of claims and completions; each step is
 * atomic, as `InterlockedDecrement` is.
 */
module RenderWorkers {

  /** What one worker thread is doing. */
  datatype Worker = Waiting | Rendering(job: nat)

  /**
   * The shared state of one frame: the claim counter, the number of jobs not
   * yet rendered (kept by the corrected signal only), each worker, the jobs
   * whose tile has been rendered, and whether `FinishEvent` has been set.
   */
  datatype Pool = Pool(counter: int, remaining: int, workers: seq<Worker>, done: set<nat>, finished: bool)

  /** One atomic step of one worker. */
  datatype Step = Claim(worker: nat) | Complete(worker: nat)

  /** The pool as `Render` starts a frame of `jobs` jobs on `threads` workers. */
  function Start(jobs: nat, threads: nat): (p: Pool)
    ensures |p.workers| == threads && p.counter == jobs && p.done == {} && !p.finished
  {
    Pool(jobs, jobs, seq(threads, _ => Waiting), {}, false)
  }

  /** The job numbers 0 .. n-1. */
  function AllJobs(n: nat): (r: set<nat>)
    ensures forall j: nat :: j in r <==> j < n
  {
    if n == 0 then {} else AllJobs(n - 1) + {n - 1}
  }

  /** A waiting worker's decrement: a non-negative result is the job it renders, a negative one means nothing is left. */
  function ClaimJob(p: Pool, w: nat): (r: Pool)
    requires w < |p.workers| && p.workers[w].Waiting?
    ensures r.counter == p.counter - 1 && r.done == p.done && r.finished == p.finished
    ensures p.counter >= 1 ==> r.workers == p.workers[w := Rendering(p.counter - 1)]
    ensures p.counter < 1 ==> r.workers == p.workers
  {
    var j := p.counter - 1;
    if j < 0 then p.(counter := j) else p.(counter := j, workers := p.workers[w := Rendering(j)])
  }

  /** A worker finishes its job; the one that rendered job 0 signals the frame finished. */
  function CompleteAsWritten(p: Pool, w: nat): (r: Pool)
    requires w < |p.workers| && p.workers[w].Rendering?
    ensures r.done == p.done + {p.workers[w].job} && r.workers == p.workers[w := Waiting]
    ensures r.finished <==> p.finished || p.workers[w].job == 0
  {
    var j := p.workers[w].job;
    p.(workers := p.workers[w := Waiting], done := p.done + {j}, finished := p.finished || j == 0)
  }

  /** The corrected completion: count rendered jobs down and signal when none is left. */
  function CompleteJob(p: Pool, w: nat): (r: Pool)
    requires w < |p.workers| && p.workers[w].Rendering?
    ensures r.done == p.done + {p.workers[w].job} && r.workers == p.workers[w := Waiting]
    ensures r.remaining == p.remaining - 1
    ensures r.finished <==> p.finished || r.remaining == 0
  {
    var j := p.workers[w].job;
    var left := p.remaining - 1;
    p.(workers := p.workers[w := Waiting], done := p.done + {j}, remaining := left, finished := p.finished || left == 0)
  }

  /** Whether worker w can take step s: a claim while waiting, a completion while rendering. */
  predicate Enabled(p: Pool, s: Step)
  {
    match s
    case Claim(w) => w < |p.workers| && p.workers[w].Waiting?
    case Complete(w) => w < |p.workers| && p.workers[w].Rendering?
  }

  function StepAsWritten(p: Pool, s: Step): Pool
  {
    if !Enabled(p, s) then p
    else match s
      case Claim(w) => ClaimJob(p, w)
      case Complete(w) => CompleteAsWritten(p, w)
  }

  function StepFixed(p: Pool, s: Step): Pool
  {
    if !Enabled(p, s) then p
    else match s
      case Claim(w) => ClaimJob(p, w)
      case Complete(w) => CompleteJob(p, w)
  }

  /** A schedule of steps; a step its worker cannot take is skipped. */
  function RunAsWritten(p: Pool, steps: seq<Step>): Pool
    decreases |steps|
  {
    if steps == [] then p else RunAsWritten(StepAsWritten(p, steps[0]), steps[1..])
  }

  function RunFixed(p: Pool, steps: seq<Step>): Pool
    decreases |steps|
  {
    if steps == [] then p else RunFixed(StepFixed(p, steps[0]), steps[1..])
  }

  /**
   * What the claim counter guarantees of a frame of n jobs: every job handed
   * out lies in [counter, n), no job is being rendered twice, and no job is
   * rendered again once done.
   */
  predicate Claimed(p: Pool, n: nat)
  {
    && p.counter <= n
    && (forall j :: j in p.done ==> p.counter <= j < n)
    && (forall w :: 0 <= w < |p.workers| && p.workers[w].Rendering? ==>
          p.counter <= p.workers[w].job < n && p.workers[w].job !in p.done)
    && (forall v, w :: 0 <= v < w < |p.workers| && p.workers[v].Rendering? && p.workers[w].Rendering? ==>
          p.workers[v].job != p.workers[w].job)
  }

  /** The corrected signal's bookkeeping: the count of jobs left, and finished exactly when it reaches zero. */
  predicate Counted(p: Pool, n: nat)
  {
    && p.remaining == |AllJobs(n) - p.done|
    && (p.finished <==> n > 0 && p.remaining == 0)
  }

  lemma {:induction false} AllJobsSize(n: nat)
    ensures |AllJobs(n)| == n
  {
    if n > 0 {
      AllJobsSize(n - 1);
    }
  }

  lemma StartClaimed(n: nat, threads: nat)
    ensures Claimed(Start(n, threads), n) && Counted(Start(n, threads), n)
  {
    AllJobsSize(n);
    assert AllJobs(n) - {} == AllJobs(n);
  }

  lemma {:induction false} ClaimKeepsClaimed(p: Pool, n: nat, w: nat)
    requires Claimed(p, n) && w < |p.workers| && p.workers[w].Waiting?
    ensures Claimed(ClaimJob(p, w), n)
  {
    var r := ClaimJob(p, w);
    forall u | 0 <= u < |r.workers| && r.workers[u].Rendering?
      ensures r.counter <= r.workers[u].job < n && r.workers[u].job !in r.done
    {
      if u != w {
        assert r.workers[u] == p.workers[u];
      }
    }
    forall v, u | 0 <= v < u < |r.workers| && r.workers[v].Rendering? && r.workers[u].Rendering?
      ensures r.workers[v].job != r.workers[u].job
    {
      if v != w && u != w {
        assert r.workers[v] == p.workers[v] && r.workers[u] == p.workers[u];
      }
    }
  }

  lemma {:induction false} CompleteKeepsClaimed(p: Pool, r: Pool, n: nat, w: nat)
    requires Claimed(p, n) && w < |p.workers| && p.workers[w].Rendering?
    requires r.counter == p.counter
    requires r.done == p.done + {p.workers[w].job} && r.workers == p.workers[w := Waiting]
    ensures Claimed(r, n)
  {
    var j := p.workers[w].job;
    forall u | 0 <= u < |r.workers| && r.workers[u].Rendering?
      ensures r.counter <= r.workers[u].job < n && r.workers[u].job !in r.done
    {
      assert u != w && r.workers[u] == p.workers[u];
      if u < w {
        assert p.workers[u].job != j;
      } else {
        assert p.workers[w].job != p.workers[u].job;
      }
    }
  }

  /** Taking one job out of the jobs left shrinks their count by one. */
  lemma LeftShrinks(all: set<nat>, done: set<nat>, j: nat)
    requires j in all && j !in done
    ensures |all - (done + {j})| == |all - done| - 1
  {
    var left := all - done;
    assert all - (done + {j}) == left - {j};
    assert left == (left - {j}) + {j};
  }

  lemma {:induction false} CompleteKeepsCounted(p: Pool, n: nat, w: nat)
    requires Claimed(p, n) && Counted(p, n) && w < |p.workers| && p.workers[w].Rendering?
    ensures Counted(CompleteJob(p, w), n)
  {
    var j := p.workers[w].job;
    assert j in AllJobs(n);
    LeftShrinks(AllJobs(n), p.done, j);
    assert j in AllJobs(n) - p.done;
  }

  lemma {:induction false} FixedKeepsInvariant(p: Pool, n: nat, steps: seq<Step>)
    requires Claimed(p, n) && Counted(p, n)
    ensures Claimed(RunFixed(p, steps), n) && Counted(RunFixed(p, steps), n)
    decreases |steps|
  {
    if steps != [] {
      var s := steps[0];
      if Enabled(p, s) {
        match s
        case Claim(w) =>
          ClaimKeepsClaimed(p, n, w);
        case Complete(w) =>
          CompleteKeepsClaimed(p, CompleteJob(p, w), n, w);
          CompleteKeepsCounted(p, n, w);
      }
      FixedKeepsInvariant(StepFixed(p, s), n, steps[1..]);
    }
  }

  /** Every job is rendered at most once and only jobs of the frame are rendered, on any schedule. */
  lemma {:induction false} AsWrittenKeepsClaimed(p: Pool, n: nat, steps: seq<Step>)
    requires Claimed(p, n)
    ensures Claimed(RunAsWritten(p, steps), n)
    decreases |steps|
  {
    if steps != [] {
      var s := steps[0];
      if Enabled(p, s) {
        match s
        case Claim(w) =>
          ClaimKeepsClaimed(p, n, w);
        case Complete(w) =>
          CompleteKeepsClaimed(p, CompleteAsWritten(p, w), n, w);
      }
      AsWrittenKeepsClaimed(StepAsWritten(p, s), n, steps[1..]);
    }
  }

  /** The signal as written only follows job 0: by then every job has been claimed. */
  lemma {:induction false} AsWrittenSignalFollowsJobZero(p: Pool, n: nat, steps: seq<Step>)
    requires Claimed(p, n) && (p.finished ==> 0 in p.done)
    ensures var r := RunAsWritten(p, steps); r.finished ==> 0 in r.done && r.counter <= 0
    decreases |steps|
  {
    if steps != [] {
      var s := steps[0];
      AsWrittenKeepsClaimed(p, n, [s]);
      assert RunAsWritten(p, [s]) == StepAsWritten(p, s);
      AsWrittenSignalFollowsJobZero(StepAsWritten(p, s), n, steps[1..]);
    } else {
      assert p.finished ==> p.counter <= 0;
    }
  }

  /**
   * With two jobs on two workers, worker 0 claims job 1, worker 1 claims job
   * 0 and finishes it: the frame is signalled finished while job 1 is still
   * being rendered.
   */
  lemma AsWrittenSignalsEarly()
    ensures var r := RunAsWritten(Start(2, 2), [Claim(0), Claim(1), Complete(1)]);
      r.finished && 1 !in r.done && r.workers[0] == Rendering(1)
  {
    var p0 := Start(2, 2);
    var p1 := StepAsWritten(p0, Claim(0));
    assert p1.workers == [Rendering(1), Waiting];
    var p2 := StepAsWritten(p1, Claim(1));
    assert p2.workers == [Rendering(1), Rendering(0)];
    var p3 := StepAsWritten(p2, Complete(1));
    assert p3.done == {0} && p3.finished;
    assert RunAsWritten(p0, [Claim(0), Claim(1), Complete(1)]) == RunAsWritten(p1, [Claim(1), Complete(1)]);
    assert RunAsWritten(p1, [Claim(1), Complete(1)]) == RunAsWritten(p2, [Complete(1)]);
  }

  /**
   * With the corrected count, the frame is signalled finished exactly when
   * every one of its jobs has been rendered, on any schedule of any number of
   * workers. An empty frame is never signalled.
   */
  lemma FixedSignalsWhenAllDone(n: nat, threads: nat, steps: seq<Step>)
    ensures var r := RunFixed(Start(n, threads), steps);
      r.finished <==> n > 0 && AllJobs(n) <= r.done
  {
    StartClaimed(n, threads);
    FixedKeepsInvariant(Start(n, threads), n, steps);
    var r := RunFixed(Start(n, threads), steps);
    if AllJobs(n) <= r.done {
      assert AllJobs(n) - r.done == {};
    }
    if r.remaining == 0 {
      assert AllJobs(n) - r.done == {};
    }
  }
}
