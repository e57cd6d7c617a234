/**
 scripts/bench7.cpp: jobs handed out from a shared atomic counter. Thread i starts on job i; a thread that has run its
 job takes the counter's value as its next and advances it; a job number past the end stops the thread.
 */
module JobCounter {

  /**
   Where a thread stands: about to test its job number, running the job, about to take the next number, or returned.
   */
  datatype Phase = Testing | Running | Fetching | Finished

  datatype Thread = Thread(phase: Phase, job: nat)

  /** The counter, the threads, and how often each job was run. */
  datatype State = State(next: nat, threads: seq<Thread>, runs: seq<nat>)

  ghost predicate Init(s: State, nth: nat, jobs: nat)
  {
    && s.next == nth && |s.threads| == nth && |s.runs| == jobs
    && (forall i :: 0 <= i < nth ==> s.threads[i] == Thread(Testing, i))
    && forall j :: 0 <= j < jobs ==> s.runs[j] == 0
  }

  /** One step of thread i: the loop test, the job, or the fetch-and-add. */
  ghost predicate Step(s: State, t: State, i: nat)
  {
    && i < |s.threads|
    && match s.threads[i].phase
       case Testing =>
         t == s.(threads := s.threads[i := s.threads[i].(phase :=
           if s.threads[i].job < |s.runs| then Running else Finished)])
       case Running =>
         var j := s.threads[i].job;
         j < |s.runs|
           && t == s.(threads := s.threads[i := s.threads[i].(phase := Fetching)], runs := s.runs[j := s.runs[j] + 1])
       case Fetching =>
         t == s.(next := s.next + 1, threads := s.threads[i := Thread(Testing, s.next)])
       case Finished => false
  }

  /** Thread i has a job number it has not run. */
  predicate Holds(s: State, i: int)
  {
    0 <= i < |s.threads| && (s.threads[i].phase == Testing || s.threads[i].phase == Running)
  }

  ghost predicate Held(s: State, j: int) { exists i :: Holds(s, i) && s.threads[i].job == j }

  ghost predicate Inv(s: State)
  {
    && (forall i :: 0 <= i < |s.threads| && s.threads[i].phase != Fetching ==> s.threads[i].job < s.next)
    && (forall i, k :: Holds(s, i) && Holds(s, k) && i != k ==> s.threads[i].job != s.threads[k].job)
    && (forall i :: 0 <= i < |s.threads| && s.threads[i].phase == Running ==> s.threads[i].job < |s.runs|)
    && (forall i :: 0 <= i < |s.threads| && s.threads[i].phase == Finished ==> s.threads[i].job >= |s.runs|)
    && forall j :: 0 <= j < |s.runs| ==> s.runs[j] == if j < s.next && !Held(s, j) then 1 else 0
  }

  lemma InitInv(s: State, nth: nat, jobs: nat)
    requires Init(s, nth, jobs)
    ensures Inv(s)
  {
    forall j | 0 <= j < jobs && j < nth ensures Held(s, j) { assert Holds(s, j) && s.threads[j].job == j; }
  }

  lemma StepKeeps(s: State, t: State, i: nat)
    requires Inv(s) && Step(s, t, i)
    ensures Inv(t) && |t.threads| == |s.threads| && |t.runs| == |s.runs|
  {
    match s.threads[i].phase
    case Testing => TestKeeps(s, t, i);
    case Running => RunKeeps(s, t, i);
    case Fetching => FetchKeeps(s, t, i);
    case Finished =>
  }

  lemma TestKeeps(s: State, t: State, i: nat)
    requires Inv(s) && Step(s, t, i) && s.threads[i].phase == Testing
    ensures Inv(t)
  {
    hide Held;
    forall m | 0 <= m < |s.runs| ensures Held(t, m) == Held(s, m) { SameHolders(s, t, i, m); }
  }

  lemma RunKeeps(s: State, t: State, i: nat)
    requires Inv(s) && Step(s, t, i) && s.threads[i].phase == Running
    ensures Inv(t)
  {
    var j := s.threads[i].job;
    assert Holds(s, i) && Held(s, j);
    assert !Held(t, j);
    hide Held;
    forall m | 0 <= m < |s.runs| && m != j ensures Held(t, m) == Held(s, m) { SameHolders(s, t, i, m); }
  }

  lemma FetchKeeps(s: State, t: State, i: nat)
    requires Inv(s) && Step(s, t, i) && s.threads[i].phase == Fetching
    ensures Inv(t)
  {
    assert Holds(t, i) && Held(t, s.next);
    hide Held;
    forall m | 0 <= m < |s.runs| && m != s.next ensures Held(t, m) == Held(s, m) { SameHolders(s, t, i, m); }
  }

  /** A step of thread i moves no other thread's job. */
  lemma SameHolders(s: State, t: State, i: nat, m: int)
    requires |t.threads| == |s.threads| && i < |s.threads|
      && forall k :: 0 <= k < |s.threads| && k != i ==> t.threads[k] == s.threads[k]
    requires Holds(s, i) && s.threads[i].job == m <==> Holds(t, i) && t.threads[i].job == m
    ensures Held(t, m) == Held(s, m)
  {
    if Held(s, m) {
      var k :| Holds(s, k) && s.threads[k].job == m;
      assert Holds(t, k) && t.threads[k].job == m;
    }
    if Held(t, m) {
      var k :| Holds(t, k) && t.threads[k].job == m;
      assert Holds(s, k) && s.threads[k].job == m;
    }
  }

  // --- runs ---

  /** A run: states joined by steps of the threads named. */
  ghost predicate IsRun(r: seq<State>, who: seq<nat>, nth: nat, jobs: nat)
  {
    && |r| == |who| + 1 && Init(r[0], nth, jobs)
    && forall k :: 0 <= k < |who| ==> Step(r[k], r[k + 1], who[k])
  }

  /** Any number of threads and jobs has a run, of its first state alone. */
  lemma RunStarts(nth: nat, jobs: nat) returns (s: State)
    ensures IsRun([s], [], nth, jobs)
  {
    s := State(nth, seq(nth, i requires 0 <= i => Thread(Testing, i)), seq(jobs, _ => 0));
  }

  lemma {:induction false} RunInv(r: seq<State>, who: seq<nat>, nth: nat, jobs: nat, k: nat)
    requires IsRun(r, who, nth, jobs) && k < |r|
    ensures Inv(r[k]) && |r[k].threads| == nth && |r[k].runs| == jobs
  {
    if k == 0 {
      InitInv(r[0], nth, jobs);
    } else {
      RunInv(r, who, nth, jobs, k - 1);
      StepKeeps(r[k - 1], r[k], who[k - 1]);
    }
  }

  predicate AllFinished(s: State) { forall i :: 0 <= i < |s.threads| ==> s.threads[i].phase == Finished }

  /** No job is run twice, and no two threads are ever on the same job. */
  lemma AtMostOnce(r: seq<State>, who: seq<nat>, nth: nat, jobs: nat, k: nat)
    requires IsRun(r, who, nth, jobs) && k < |r|
    ensures |r[k].runs| == jobs && forall j :: 0 <= j < |r[k].runs| ==> r[k].runs[j] <= 1
    ensures forall a, b ::
      0 <= a < |r[k].threads| && 0 <= b < |r[k].threads| && a != b && r[k].threads[a].phase == Running
        && r[k].threads[b].phase == Running ==>
        r[k].threads[a].job != r[k].threads[b].job
  {
    RunInv(r, who, nth, jobs, k);
    forall a, b | 0 <= a < nth && 0 <= b < nth && a != b && r[k].threads[a].phase == Running
      && r[k].threads[b].phase == Running
      ensures r[k].threads[a].job != r[k].threads[b].job
    {
      assert Holds(r[k], a) && Holds(r[k], b);
    }
  }

  /** When every thread has returned, every job was run exactly once. */
  lemma ExactlyOnce(r: seq<State>, who: seq<nat>, nth: nat, jobs: nat, k: nat)
    requires IsRun(r, who, nth, jobs) && k < |r| && nth > 0 && AllFinished(r[k])
    ensures |r[k].runs| == jobs && forall j :: 0 <= j < |r[k].runs| ==> r[k].runs[j] == 1
  {
    RunInv(r, who, nth, jobs, k);
    assert r[k].threads[0].phase == Finished;
  }

  /** The jobs of the first k steps, in the order they are run. */
  function RunOrder(r: seq<State>, who: seq<nat>, k: nat): seq<nat>
    requires |r| == |who| + 1 && k < |r| && forall m :: 0 <= m < |who| ==> Step(r[m], r[m + 1], who[m])
  {
    if k == 0 then []
    else
      assert Step(r[k - 1], r[k - 1 + 1], who[k - 1]);
      var t := r[k - 1].threads[who[k - 1]];
      RunOrder(r, who, k - 1) + if t.phase == Running then [t.job] else []
  }

  /** How often job j stands in the order. */
  function Times(order: seq<nat>, j: nat): nat { multiset(order)[j] }

  lemma NotInOrder(order: seq<nat>, j: nat)
    requires j !in order
    ensures Times(order, j) == 0
  {
  }

  lemma OneMore(order: seq<nat>, job: nat)
    ensures forall j: nat :: Times(order + [job], j) == Times(order, j) + if j == job then 1 else 0
  {
  }

  /** A step adds to the order the job it runs, and to the runs of that job. */
  lemma OrderStep(r: seq<State>, who: seq<nat>, k: nat)
    requires |r| == |who| + 1 && 0 < k < |r| && forall m :: 0 <= m < |who| ==> Step(r[m], r[m + 1], who[m])
    ensures who[k - 1] < |r[k - 1].threads| && |r[k].runs| == |r[k - 1].runs|
    ensures var t, q := r[k - 1].threads[who[k - 1]], RunOrder(r, who, k - 1);
      if t.phase == Running then
        && t.job < |r[k].runs| && RunOrder(r, who, k) == q + [t.job]
        && r[k].runs == r[k - 1].runs[t.job := r[k - 1].runs[t.job] + 1]
      else RunOrder(r, who, k) == q && r[k].runs == r[k - 1].runs
  {
    assert Step(r[k - 1], r[k - 1 + 1], who[k - 1]);
  }

  ghost predicate Counted(s: State, order: seq<nat>)
  {
    && (forall j :: 0 <= j < |s.runs| ==> Times(order, j) == s.runs[j])
    && forall i :: 0 <= i < |order| ==> order[i] < |s.runs|
  }

  lemma {:induction false} NothingCounted(s: State, nth: nat, jobs: nat)
    requires Init(s, nth, jobs)
    ensures Counted(s, [])
  {
  }

  /** The order holds each job as often as it was run, and nothing else. */
  lemma {:induction false} OrderCounts(r: seq<State>, who: seq<nat>, nth: nat, jobs: nat, k: nat)
    requires IsRun(r, who, nth, jobs) && k < |r|
    ensures |r[k].runs| == jobs && Counted(r[k], RunOrder(r, who, k))
  {
    hide Step;
    hide Times;
    hide Init;
    if k == 0 {
      InitInv(r[0], nth, jobs);
      RunInv(r, who, nth, jobs, 0);
      NothingCounted(r[0], nth, jobs);
    } else {
      OrderCounts(r, who, nth, jobs, k - 1);
      OrderStep(r, who, k);
      OneMore(RunOrder(r, who, k - 1), r[k - 1].threads[who[k - 1]].job);
    }
  }

  ghost predicate OnceEach(order: seq<nat>, jobs: nat)
  {
    && (forall j: nat :: Times(order, j) == if j < jobs then 1 else 0)
    && forall i :: 0 <= i < |order| ==> order[i] < jobs
  }

  /** In a run in which every thread has returned each job stands once in the order. */
  lemma FinishedOrder(r: seq<State>, who: seq<nat>, nth: nat, jobs: nat)
    requires IsRun(r, who, nth, jobs) && nth > 0 && AllFinished(r[|who|])
    ensures OnceEach(RunOrder(r, who, |who|), jobs)
  {
    hide RunOrder;
    hide Times;
    hide Inv;
    OrderCounts(r, who, nth, jobs, |who|);
    ExactlyOnce(r, who, nth, jobs, |who|);
    var order := RunOrder(r, who, |who|);
    forall j: nat ensures Times(order, j) == if j < jobs then 1 else 0 {
      if j >= jobs { NotInOrder(order, j); }
    }
  }

  /** Until then some thread can step. */
  lemma NeverStuck(r: seq<State>, who: seq<nat>, nth: nat, jobs: nat, k: nat) returns (i: nat, t: State)
    requires IsRun(r, who, nth, jobs) && k < |r| && !AllFinished(r[k])
    ensures Step(r[k], t, i)
  {
    RunInv(r, who, nth, jobs, k);
    var s := r[k];
    i :| 0 <= i < |s.threads| && s.threads[i].phase != Finished;
    var j := s.threads[i].job;
    match s.threads[i].phase
    case Testing => t := s.(threads := s.threads[i := s.threads[i].(phase :=
      if j < |s.runs| then Running else Finished)]);
    case Running => t := s.(threads := s.threads[i := s.threads[i].(phase := Fetching)],
                            runs := s.runs[j := s.runs[j] + 1]);
    case Fetching => t := s.(next := s.next + 1, threads := s.threads[i := Thread(Testing, s.next)]);
    case Finished =>
  }

  // --- every run ends ---

  function Sum(a: seq<nat>): nat { if a == [] then 0 else Sum(a[..|a| - 1]) + a[|a| - 1] }

  lemma {:induction false} SumUpdate(a: seq<nat>, i: nat, v: nat)
    requires i < |a|
    ensures Sum(a[i := v]) == Sum(a) - a[i] + v
  {
    var b := a[i := v];
    if i == |a| - 1 {
      assert b[..|a| - 1] == a[..|a| - 1];
    } else {
      assert b[..|a| - 1] == a[..|a| - 1][i := v];
      SumUpdate(a[..|a| - 1], i, v);
    }
  }

  lemma {:induction false} SumBound(a: seq<nat>, m: nat)
    requires forall i :: 0 <= i < |a| ==> a[i] <= m
    ensures Sum(a) <= m * |a|
  {
    if a != [] {
      SumBound(a[..|a| - 1], m);
      assert m * |a| == m * (|a| - 1) + m;
    }
  }

  function Weight(p: Phase): nat { match p case Fetching => 3 case Testing => 2 case Running => 1 case Finished => 0 }

  function Weights(threads: seq<Thread>): (w: seq<nat>)
    ensures |w| == |threads| && forall i :: 0 <= i < |w| ==> w[i] == Weight(threads[i].phase)
  {
    seq(|threads|, i requires 0 <= i < |threads| => Weight(threads[i].phase))
  }

  /** What a state still has to do. */
  function Left(s: State): int { 3 * (|s.runs| - Sum(s.runs)) + Sum(Weights(s.threads)) }

  lemma StepDecreases(s: State, t: State, i: nat)
    requires Inv(s) && Step(s, t, i)
    ensures Left(t) < Left(s)
  {
    var w := Weights(s.threads);
    assert Weights(t.threads) == w[i := Weight(t.threads[i].phase)];
    SumUpdate(w, i, Weight(t.threads[i].phase));
    if s.threads[i].phase == Running {
      var j := s.threads[i].job;
      SumUpdate(s.runs, j, s.runs[j] + 1);
    }
  }

  lemma LeftNonneg(s: State)
    requires Inv(s)
    ensures Left(s) >= 0
  {
    SumBound(s.runs, 1);
  }

  lemma {:induction false} LeftAt(r: seq<State>, who: seq<nat>, nth: nat, jobs: nat, k: nat)
    requires IsRun(r, who, nth, jobs) && k < |r|
    ensures Left(r[k]) <= Left(r[0]) - k
  {
    if k > 0 {
      LeftAt(r, who, nth, jobs, k - 1);
      RunInv(r, who, nth, jobs, k - 1);
      StepDecreases(r[k - 1], r[k], who[k - 1]);
    }
  }

  /** Every interleaving ends within three steps a job and two a thread. */
  lemma RunsEnd(r: seq<State>, who: seq<nat>, nth: nat, jobs: nat)
    requires IsRun(r, who, nth, jobs)
    ensures |who| <= 3 * jobs + 2 * nth
  {
    LeftAt(r, who, nth, jobs, |who|);
    RunInv(r, who, nth, jobs, |who|);
    LeftNonneg(r[|who|]);
    SumBound(Weights(r[0].threads), 2);
  }
}
