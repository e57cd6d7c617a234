/**
 scripts/bench66.cpp, Pool: a generation-counted worker pool. A step is one operation of the caller or of
 one worker on the shared fields; every interleaving, spurious wake-ups included. Functions handed to
 run() are numbered 1, 2, ...; a worker's log is the list of functions it has finished.
 */
module WorkerPool {
  import opened SpinBarrier

  datatype Holder = Free | ByMain | ByWorker(i: nat)

  /** The caller: inside run(), or inside the destructor (the Quit places), or between calls. */
  datatype MainPc =
    | Idle | Assigned | Cleared | Locked | Bumped | Unlocked | Notified | AwaitingDone
    | QuitLocked | QuitSet | QuitUnlocked | Joining | Gone

  datatype WorkerPc =
    | WantsLock            // about to lock mu, at start, after a wake-up, or after a call
    | Holds                // holds mu, about to test the predicate
    | Asleep               // inside cv.wait
    | Calling              // has taken the generation and released mu
    | Inside(f: nat)       // runs function f
    | Counting             // about to add to done
    | Exited

  datatype Worker = Worker(pc: WorkerPc, seen: nat, log: seq<nat>)

  datatype Pool = Pool(lock: Holder, gen: nat, quit: bool, done: nat, fn: nat, main: MainPc, workers: seq<Worker>)

  ghost predicate Init(s: Pool)
  {
    && s.lock == Free && s.gen == 0 && !s.quit && s.done == 0 && s.fn == 0 && s.main == Idle
    && forall i :: 0 <= i < |s.workers| ==> s.workers[i] == Worker(WantsLock, 0, [])
  }

  // --- steps of the caller ---

  /** notify_all wakes every sleeper; each then asks for the lock again. */
  function WakeAll(ws: seq<Worker>): (r: seq<Worker>)
    ensures |r| == |ws|
  {
    seq(|ws|, i requires 0 <= i < |ws| => if ws[i].pc == Asleep then ws[i].(pc := WantsLock) else ws[i])
  }

  ghost predicate AllExited(s: Pool) { forall i :: 0 <= i < |s.workers| ==> s.workers[i].pc == Exited }

  /** The state after the caller's next operation; `stop` chooses the destructor over another run() when idle. */
  function MainMoved(s: Pool, stop: bool): Pool
  {
    match s.main
    case Idle => if stop then s.(lock := ByMain, main := QuitLocked) else s.(fn := s.fn + 1, main := Assigned)
    case Assigned => s.(done := 0, main := Cleared)
    case Cleared => s.(lock := ByMain, main := Locked)
    case Locked => s.(gen := s.gen + 1, main := Bumped)
    case Bumped => s.(lock := Free, main := Unlocked)
    case Unlocked => s.(workers := WakeAll(s.workers), main := Notified)
    case Notified => s.(main := AwaitingDone)
    case AwaitingDone => s.(main := Idle)
    case QuitLocked => s.(quit := true, main := QuitSet)
    case QuitSet => s.(lock := Free, main := QuitUnlocked)
    case QuitUnlocked => s.(workers := WakeAll(s.workers), main := Joining)
    case Joining => s.(main := Gone)
    case Gone => s
  }

  /** The caller steps: locking waits for the lock, the spin for the count, the joins for the exits. */
  ghost predicate MainStep(s: Pool, t: Pool, stop: bool)
  {
    && s.main != Gone
    && (s.main == Cleared || (s.main == Idle && stop) ==> s.lock == Free)
    && (s.main == AwaitingDone ==> s.done == |s.workers|)
    && (s.main == Joining ==> AllExited(s))
    && t == MainMoved(s, stop)
  }

  // --- steps of a worker ---

  function With(s: Pool, i: nat, w: Worker): Pool
    requires i < |s.workers|
  {
    s.(workers := s.workers[i := w])
  }

  /** The state after worker i's next operation. */
  function Moved(s: Pool, i: nat): Pool
    requires i < |s.workers|
  {
    var w := s.workers[i];
    match w.pc
    case WantsLock => With(s, i, w.(pc := Holds)).(lock := ByWorker(i))
    case Holds =>
      With(s, i,
           if s.quit then w.(pc := Exited)
           else if s.gen != w.seen then w.(pc := Calling, seen := s.gen)
           else w.(pc := Asleep)).(lock := Free)
    case Asleep => With(s, i, w.(pc := WantsLock))
    case Calling => With(s, i, w.(pc := Inside(s.fn)))
    case Inside(f) => With(s, i, w.(pc := Counting, log := w.log + [f]))
    case Counting => With(s, i, w.(pc := WantsLock)).(done := s.done + 1)
    case Exited => s
  }

  /** Worker i steps; locking waits for the lock. An Asleep worker may wake for no reason. */
  ghost predicate WorkerStep(s: Pool, t: Pool, i: nat)
    requires i < |s.workers|
  {
    && s.workers[i].pc != Exited
    && (s.workers[i].pc == WantsLock ==> s.lock == Free)
    && t == Moved(s, i)
  }

  ghost predicate Next(s: Pool, t: Pool)
  {
    (exists stop :: MainStep(s, t, stop)) || (exists i: nat :: i < |s.workers| && WorkerStep(s, t, i))
  }

  // --- the invariant ---

  /** run() is past the point where the generation it opened is visible. */
  predicate Open(m: MainPc) { m == Bumped || m == Unlocked || m == Notified || m == AwaitingDone }

  /** The function of the run in progress is set. */
  predicate FnSet(m: MainPc) { m == Assigned || m == Cleared || m == Locked || Open(m) }

  /** Worker w has been counted for the current generation and has nothing left to do for it. */
  predicate Rested(s: Pool, w: Worker)
  {
    w.seen == s.gen && |w.log| == s.gen && (w.pc == WantsLock || w.pc == Holds || w.pc == Asleep || w.pc == Exited)
  }

  ghost function RestedSet(s: Pool): set<nat> { set i: nat | i < |s.workers| && Rested(s, s.workers[i]) }

  /** The functions 1..n, each once, in order. */
  function Upto(n: nat): (r: seq<nat>) ensures |r| == n { seq(n, k => k + 1) }

  ghost predicate WorkerOk(s: Pool, i: nat)
    requires i < |s.workers|
  {
    var w := s.workers[i];
    && w.log == Upto(|w.log|)
    && (w.pc == Holds <==> s.lock == ByWorker(i))
    && (w.pc == Exited ==> s.quit)
    && (if Open(s.main) then
          match w.pc
          case WantsLock => Rested(s, w) || (w.seen + 1 == s.gen && |w.log| == w.seen)
          case Holds => Rested(s, w) || (w.seen + 1 == s.gen && |w.log| == w.seen)
          case Asleep => Rested(s, w)
            || (w.seen + 1 == s.gen && |w.log| == w.seen && (s.main == Bumped || s.main == Unlocked))
          case Calling => w.seen == s.gen && |w.log| + 1 == s.gen
          case Inside(f) => w.seen == s.gen && |w.log| + 1 == s.gen && f == s.gen
          case Counting => w.seen == s.gen && |w.log| == s.gen
          case Exited => false
        else Rested(s, w))
    && (w.pc == Asleep && s.quit ==> s.main == QuitSet || s.main == QuitUnlocked)
  }

  ghost predicate Inv(s: Pool)
  {
    && (s.lock == ByMain <==> s.main == Locked || s.main == Bumped || s.main == QuitLocked || s.main == QuitSet)
    && (s.lock.ByWorker? ==> s.lock.i < |s.workers|)
    && (s.quit <==> s.main == QuitSet || s.main == QuitUnlocked || s.main == Joining || s.main == Gone)
    && s.fn == (if FnSet(s.main) && !Open(s.main) then s.gen + 1 else s.gen)
    && (forall i: nat :: i < |s.workers| ==> WorkerOk(s, i))
    && (s.main == Cleared || s.main == Locked ==> s.done == 0)
    && (Open(s.main) ==> s.done == |RestedSet(s)|)
  }

  // --- what it means ---

  /** Each worker has executed functions 1, 2, ... exactly once each, in order, and between runs all of them. */
  lemma OncePerGeneration(s: Pool, i: nat)
    requires Inv(s) && i < |s.workers|
    ensures s.workers[i].log == Upto(|s.workers[i].log|)
    ensures !Open(s.main) ==> s.workers[i].log == Upto(s.gen)
    ensures s.gen <= |s.workers[i].log| + 1
  {
    assert WorkerOk(s, i);
  }

  /** fn is assigned only while no worker is about to call it or inside it. */
  lemma FnNotInUse(s: Pool, t: Pool, i: nat)
    requires Inv(s) && MainStep(s, t, false) && t.fn != s.fn && i < |s.workers|
    ensures s.workers[i].pc != Calling && !s.workers[i].pc.Inside? && s.workers[i].pc != Counting
  {
    assert WorkerOk(s, i);
  }

  /** A worker inside a call runs the function of the generation it took. */
  lemma InsideIsCurrent(s: Pool, i: nat)
    requires Inv(s) && i < |s.workers| && s.workers[i].pc.Inside?
    ensures s.workers[i].pc.f == s.fn == s.gen
  {
    assert WorkerOk(s, i);
  }

  /** run() returns only once every worker has finished its function. */
  lemma RunReturnsAfterAll(s: Pool, i: nat)
    requires Inv(s) && s.main == AwaitingDone && s.done == |s.workers| && i < |s.workers|
    ensures s.workers[i].log == Upto(s.gen) && Rested(s, s.workers[i])
  {
    ThreadsSize(|s.workers|);
    SubsetSize(RestedSet(s), Threads(|s.workers|));
    assert i in RestedSet(s);
    assert WorkerOk(s, i);
  }

  // --- it holds in every run ---

  lemma InitInv(s: Pool)
    requires Init(s)
    ensures Inv(s)
  {
    forall i: nat | i < |s.workers| ensures WorkerOk(s, i) {}
  }

  lemma MainKeepsWorker(s: Pool, t: Pool, stop: bool, i: nat)
    requires Inv(s) && MainStep(s, t, stop) && i < |s.workers|
    ensures i < |t.workers| && WorkerOk(t, i)
  {
    hide Upto;
    assert WorkerOk(s, i);
    if s.main == AwaitingDone { RunReturnsAfterAll(s, i); }
  }

  /** Opening a generation leaves nobody counted for it; later steps of the caller do not change who is. */
  lemma MainKeepsCount(s: Pool, t: Pool, stop: bool)
    requires Inv(s) && MainStep(s, t, stop) && Open(t.main)
    ensures t.done == |RestedSet(t)|
  {
    hide Upto;
    forall i: nat | i < |s.workers|
      ensures Rested(t, t.workers[i]) <==> Open(s.main) && Rested(s, s.workers[i])
    {
      assert WorkerOk(s, i);
    }
    assert RestedSet(t) == if Open(s.main) then RestedSet(s) else {};
  }

  lemma MainKeeps(s: Pool, t: Pool, stop: bool)
    requires Inv(s) && MainStep(s, t, stop)
    ensures Inv(t)
  {
    hide Upto;
    hide WorkerOk;
    hide RestedSet;
    assert |t.workers| == |s.workers|;
    forall i: nat | i < |s.workers| ensures WorkerOk(t, i) { MainKeepsWorker(s, t, stop, i); }
    if Open(t.main) { MainKeepsCount(s, t, stop); }
  }

  lemma LogGrows(n: nat)
    ensures Upto(n) + [n + 1] == Upto(n + 1)
  {
  }

  lemma WorkerKeepsOwn(s: Pool, t: Pool, i: nat)
    requires Inv(s) && i < |s.workers| && WorkerStep(s, t, i)
    ensures WorkerOk(t, i)
  {
    hide Upto;
    assert WorkerOk(s, i);
    LogGrows(|s.workers[i].log|);
  }

  lemma WorkerKeepsOther(s: Pool, t: Pool, i: nat, j: nat)
    requires Inv(s) && i < |s.workers| && WorkerStep(s, t, i) && j < |s.workers| && j != i
    ensures WorkerOk(t, j)
  {
    hide Upto;
    assert WorkerOk(s, i) && WorkerOk(s, j);
  }

  /** Counting is the one step that makes a worker rested, and it adds one to done. */
  lemma WorkerKeepsCount(s: Pool, t: Pool, i: nat)
    requires Inv(s) && i < |s.workers| && WorkerStep(s, t, i) && Open(s.main)
    ensures t.done == |RestedSet(t)|
  {
    hide Upto;
    assert WorkerOk(s, i);
    forall j: nat | j < |s.workers|
      ensures Rested(t, t.workers[j]) <==> Rested(s, s.workers[j]) || (j == i && s.workers[i].pc == Counting)
    {
      assert j != i ==> t.workers[j] == s.workers[j];
    }
    if s.workers[i].pc == Counting {
      assert RestedSet(t) == RestedSet(s) + {i} && i !in RestedSet(s);
    } else {
      assert RestedSet(t) == RestedSet(s);
    }
  }

  lemma WorkerKeeps(s: Pool, t: Pool, i: nat)
    requires Inv(s) && i < |s.workers| && WorkerStep(s, t, i)
    ensures Inv(t)
  {
    hide Upto;
    hide RestedSet;
    WorkerKeepsOwn(s, t, i);
    forall j: nat | j < |s.workers| ensures WorkerOk(t, j) {
      if j != i { WorkerKeepsOther(s, t, i, j); }
    }
    assert WorkerOk(s, i);
    if Open(t.main) { WorkerKeepsCount(s, t, i); }
  }

  // --- nothing gets stuck ---

  /** A worker that is not rested can move, unless the lock keeps it waiting. */
  lemma UnrestedMoves(s: Pool, i: nat) returns (t: Pool)
    requires Inv(s) && i < |s.workers| && s.main == AwaitingDone && !Rested(s, s.workers[i])
    requires s.lock == Free || s.workers[i].pc != WantsLock
    ensures WorkerStep(s, t, i) && t != s
  {
    hide Upto;
    assert WorkerOk(s, i);
    t := Moved(s, i);
    assert t.workers[i] != s.workers[i];
  }

  /** The holder of the lock, when a worker, can always give it up. */
  lemma HolderMoves(s: Pool) returns (t: Pool)
    requires Inv(s) && s.lock.ByWorker?
    ensures WorkerStep(s, t, s.lock.i) && t != s
  {
    assert WorkerOk(s, s.lock.i);
    t := Moved(s, s.lock.i);
    assert t.lock != s.lock;
  }

  lemma AllRested(s: Pool)
    requires forall j: nat :: j < |s.workers| ==> Rested(s, s.workers[j])
    ensures |RestedSet(s)| == |s.workers|
  {
    ThreadsSize(|s.workers|);
    assert RestedSet(s) == Threads(|s.workers|);
  }

  /** While a run is awaited and not every worker is counted, some worker can move without a wake-up. */
  lemma AwaitedRunProgresses(s: Pool) returns (t: Pool, i: nat)
    requires Inv(s) && s.main == AwaitingDone && s.done != |s.workers|
    ensures i < |s.workers| && s.workers[i].pc != Asleep && WorkerStep(s, t, i) && t != s
  {
    hide Upto;
    if forall j: nat :: j < |s.workers| ==> Rested(s, s.workers[j]) {
      AllRested(s);
      assert false;
    }
    i :| i < |s.workers| && !Rested(s, s.workers[i]);
    assert WorkerOk(s, i);
    if s.lock == Free || s.workers[i].pc != WantsLock {
      t := UnrestedMoves(s, i);
    } else {
      i := s.lock.i;
      assert WorkerOk(s, i);
      t := HolderMoves(s);
    }
  }

  /** No state short of the end is stuck: the caller or some worker can take a step that changes the state. */
  lemma NeverStuck(s: Pool) returns (t: Pool)
    requires Inv(s) && s.main != Gone
    ensures Next(s, t) && t != s
  {
    hide Upto;
    if s.main == AwaitingDone && s.done != |s.workers| {
      var i;
      t, i := AwaitedRunProgresses(s);
    } else if s.main == Joining && !AllExited(s) {
      var i :| 0 <= i < |s.workers| && s.workers[i].pc != Exited;
      var n: nat := i;
      assert WorkerOk(s, n);
      if s.lock.ByWorker? { t := HolderMoves(s); }
      else { t := Moved(s, n); assert t.workers[n] != s.workers[n] && WorkerStep(s, t, n); }
    } else if s.main == Cleared && s.lock.ByWorker? {
      t := HolderMoves(s);
    } else {
      t := MainMoved(s, false);
      assert MainStep(s, t, false);
    }
  }

  ghost predicate IsRun(tr: seq<Pool>)
  {
    |tr| > 0 && Init(tr[0]) && forall k: nat :: k + 1 < |tr| ==> Next(tr[k], tr[k + 1])
  }

  /** Every state of every run satisfies the invariant. */
  lemma {:induction false} RunInv(tr: seq<Pool>, k: nat)
    requires IsRun(tr) && k < |tr|
    ensures Inv(tr[k])
  {
    if k == 0 {
      InitInv(tr[0]);
    } else {
      RunInv(tr, k - 1);
      var s, t := tr[k - 1], tr[k - 1 + 1];
      if stop: bool :| MainStep(s, t, stop) {
        MainKeeps(s, t, stop);
      } else {
        var i: nat :| i < |s.workers| && WorkerStep(s, t, i);
        WorkerKeeps(s, t, i);
      }
    }
  }

  /** A pool of n workers has a run, of its first state alone. */
  lemma RunStarts(n: nat) returns (s: Pool)
    ensures |s.workers| == n && IsRun([s])
  {
    s := Pool(Free, 0, false, 0, 0, Idle, seq(n, _ => Worker(WantsLock, 0, [])));
  }

  /** The destructor is past its joins only when every worker has exited, having executed every function once. */
  lemma {:induction false} GoneMeansExited(tr: seq<Pool>, k: nat, i: nat)
    requires IsRun(tr) && k < |tr| && tr[k].main == Gone && i < |tr[k].workers|
    ensures tr[k].workers[i].pc == Exited && tr[k].workers[i].log == Upto(tr[k].fn)
  {
    hide Upto;
    RunInv(tr, k);
    assert WorkerOk(tr[k], i);
    OncePerGeneration(tr[k], i);
    if k > 0 {
      var s, t := tr[k - 1], tr[k - 1 + 1];
      if s.main == Gone {
        assert i < |s.workers|;
        GoneMeansExited(tr, k - 1, i);
      }
    }
  }
}
