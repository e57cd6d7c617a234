/**
 scripts/bench66.cpp: the reusable spin barrier, one atomic operation a step, over every interleaving.
 `passed` (barrier calls thread i has returned from) and `rounds` (generations completed) are history.
 */
module SpinBarrier {

  /** The values of a 32-bit generation counter, which wraps. */
  const WORD: int := 0x1_0000_0000

  /** Where a thread stands in barrier(). */
  datatype Pc =
    | Running                  // outside the barrier
    | Loaded(g: int)           // has read bar_gen
    | Last                     // its fetch_add returned nth - 1
    | Reset                    // has stored 0 in bar_count
    | Spinning(g: int)         // waits for bar_gen to leave g

  datatype Barrier = Barrier(count: int, gen: int, pcs: seq<Pc>, passed: seq<nat>, rounds: nat)

  ghost predicate Init(s: Barrier, nth: nat)
  {
    && nth > 0 && |s.pcs| == |s.passed| == nth && s.count == 0 && s.gen == 0 && s.rounds == 0
    && (forall i :: 0 <= i < nth ==> s.pcs[i] == Running && s.passed[i] == 0)
  }

  /** Any number of threads has a first state. */
  lemma Starts(nth: nat) returns (s: Barrier)
    requires nth > 0
    ensures Init(s, nth)
  {
    s := Barrier(0, 0, seq(nth, _ => Running), seq(nth, _ => 0), 0);
  }

  /** Thread i moves to `pc`; everything else stands. */
  function Move(s: Barrier, i: nat, pc: Pc): Barrier
    requires i < |s.pcs|
  {
    s.(pcs := s.pcs[i := pc])
  }

  /** Thread i returns from barrier(). */
  function Return(s: Barrier, i: nat): Barrier
    requires i < |s.pcs| == |s.passed|
  {
    Move(s, i, Running).(passed := s.passed[i := s.passed[i] + 1])
  }

  /** What thread i's next atomic operation does; a spin that reads the old generation changes nothing. */
  function Act(s: Barrier, i: nat): Barrier
    requires i < |s.pcs| == |s.passed|
  {
    var nth := |s.pcs|;
    match s.pcs[i]
    case Running =>
      if nth == 1 then Return(s, i).(rounds := s.rounds + 1) else Move(s, i, Loaded(s.gen))
    case Loaded(g) => Move(s, i, if s.count == nth - 1 then Last else Spinning(g)).(count := s.count + 1)
    case Last => Move(s, i, Reset).(count := 0)
    case Reset => Return(s, i).(gen := (s.gen + 1) % WORD, rounds := s.rounds + 1)
    case Spinning(g) => if s.gen == g then s else Return(s, i)
  }

  /** Thread i has arrived in the current generation and waits for the others. */
  predicate Waiting(s: Barrier, i: nat)
    requires i < |s.pcs| == |s.passed|
  {
    s.pcs[i].Spinning? && s.passed[i] == s.rounds
  }

  ghost predicate Arrived(s: Barrier, i: nat)
    requires i < |s.pcs| == |s.passed|
  {
    Waiting(s, i) || s.pcs[i].Last?
  }

  ghost function Arrivals(s: Barrier): set<nat>
    requires |s.pcs| == |s.passed|
  {
    set i: nat | i < |s.pcs| && Arrived(s, i)
  }

  /** What each thread's place says of the generation. */
  ghost predicate Placed(s: Barrier, i: nat)
    requires i < |s.pcs| == |s.passed|
  {
    match s.pcs[i]
    case Spinning(g) =>
      || (s.passed[i] == s.rounds && g == s.gen)
      || (s.passed[i] + 1 == s.rounds && g == s.passed[i] % WORD)
    case Loaded(g) => s.passed[i] == s.rounds && g == s.gen
    case _ => s.passed[i] == s.rounds
  }

  ghost predicate OthersWait(s: Barrier, i: nat)
    requires i < |s.pcs| == |s.passed|
  {
    forall j: nat :: j < |s.pcs| && j != i ==> Waiting(s, j)
  }

  ghost predicate Inv(s: Barrier)
  {
    && |s.pcs| == |s.passed| > 0
    && (|s.pcs| > 1 ==> s.gen == s.rounds % WORD)
    && (|s.pcs| == 1 ==> s.pcs[0] == Running)
    && (forall i: nat :: i < |s.pcs| ==> Placed(s, i))
    && (forall i: nat :: i < |s.pcs| && (s.pcs[i].Last? || s.pcs[i].Reset?) ==> OthersWait(s, i))
    && (if exists i: nat :: i < |s.pcs| && s.pcs[i].Reset? then s.count == 0 else s.count == |Arrivals(s)|)
    && ((forall i: nat :: i < |s.pcs| ==> !s.pcs[i].Last? && !s.pcs[i].Reset?) ==> s.count < |s.pcs|)
  }

  // --- counting threads ---

  function Threads(n: nat): (r: set<nat>)
    ensures forall i: nat :: i in r <==> i < n
  {
    if n == 0 then {} else Threads(n - 1) + {n - 1}
  }

  lemma {:induction false} ThreadsSize(n: nat)
    ensures |Threads(n)| == n
  {
    if n > 0 { ThreadsSize(n - 1); }
  }

  lemma {:induction false} SubsetSize(a: set<nat>, b: set<nat>)
    requires a <= b
    ensures |a| <= |b| && (|a| == |b| ==> a == b)
    decreases |a|
  {
    if a != {} {
      var x :| x in a;
      SubsetSize(a - {x}, b - {x});
      assert a == (a - {x}) + {x} && b == (b - {x}) + {x};
    } else if |b| == 0 {
      assert b == {};
    }
  }

  /** An arrival that finds nth - 1 counted is the last: everyone else waits. */
  lemma LastArrival(s: Barrier, i: nat)
    requires Inv(s) && i < |s.pcs| && s.pcs[i].Loaded?
    ensures s.count == |Arrivals(s)| && s.count <= |s.pcs| - 1
    ensures s.count == |s.pcs| - 1 ==> OthersWait(s, i)
  {
    var rest := Threads(|s.pcs|) - {i};
    ThreadsSize(|s.pcs|);
    SubsetSize(Arrivals(s), rest);
    if s.count == |s.pcs| - 1 {
      forall j: nat | j < |s.pcs| && j != i ensures Waiting(s, j) {
        assert j in rest;
        assert Arrived(s, j);
      }
    }
  }

  /** The other threads stand where they stood. */
  lemma OthersPlaced(s: Barrier, t: Barrier, i: nat)
    requires Inv(s) && i < |s.pcs| == |t.pcs| == |t.passed| && t.gen == s.gen && t.rounds == s.rounds
    requires forall j: nat :: j < |s.pcs| && j != i ==> t.pcs[j] == s.pcs[j] && t.passed[j] == s.passed[j]
    requires Placed(t, i)
    ensures forall j: nat :: j < |s.pcs| ==> Placed(t, j)
    ensures forall j: nat :: j < |s.pcs| && j != i ==> Waiting(t, j) == Waiting(s, j) && Arrived(t, j) == Arrived(s, j)
  {
    forall j: nat | j < |s.pcs| ensures Placed(t, j) { assert j != i ==> Placed(s, j); }
  }

  lemma InitInv(s: Barrier, nth: nat)
    requires Init(s, nth)
    ensures Inv(s)
  {
    assert Arrivals(s) == {};
  }

  lemma EnterKeeps(s: Barrier, i: nat)
    requires Inv(s) && i < |s.pcs| && s.pcs[i].Running?
    ensures Inv(Act(s, i))
  {
    var t := Act(s, i);
    assert Placed(s, i);
    if |s.pcs| > 1 {
      OthersPlaced(s, t, i);
      forall l: nat | l < |s.pcs| && (s.pcs[l].Last? || s.pcs[l].Reset?) ensures Waiting(s, i) {
        assert OthersWait(s, l);
      }
      assert Arrivals(t) == Arrivals(s);
    } else {
      assert Arrivals(t) == {} && Arrivals(s) == {};
    }
  }

  lemma ArriveKeeps(s: Barrier, i: nat)
    requires Inv(s) && i < |s.pcs| && s.pcs[i].Loaded?
    ensures Inv(Act(s, i))
  {
    var t := Act(s, i);
    assert Placed(s, i);
    LastArrival(s, i);
    OthersPlaced(s, t, i);
    assert Arrivals(t) == Arrivals(s) + {i};
  }

  lemma ResetKeeps(s: Barrier, i: nat)
    requires Inv(s) && i < |s.pcs| && s.pcs[i].Last?
    ensures Inv(Act(s, i))
  {
    var t := Act(s, i);
    assert Placed(s, i) && OthersWait(s, i);
    OthersPlaced(s, t, i);
    forall j: nat | j < |s.pcs| && j != i ensures Waiting(t, j) && t.pcs[j].Spinning? { assert Waiting(s, j); }
    assert OthersWait(t, i) && t.pcs[i].Reset?;
  }

  lemma BumpKeeps(s: Barrier, i: nat)
    requires Inv(s) && i < |s.pcs| && s.pcs[i].Reset?
    ensures Inv(Act(s, i))
  {
    var t := Act(s, i);
    assert Placed(s, i) && OthersWait(s, i);
    assert t.gen == t.rounds % WORD;
    forall j: nat | j < |s.pcs|
      ensures Placed(t, j) && !Arrived(t, j) && (j != i ==> t.pcs[j].Spinning?) && !t.pcs[j].Last? && !t.pcs[j].Reset?
    {
      assert j != i ==> Waiting(s, j) && Placed(s, j);
    }
    assert Arrivals(t) == {};
  }

  lemma SpinKeeps(s: Barrier, i: nat)
    requires Inv(s) && i < |s.pcs| && s.pcs[i].Spinning?
    ensures Inv(Act(s, i))
  {
    var t := Act(s, i);
    if t != s {
      assert Placed(s, i) && !Waiting(s, i);
      OthersPlaced(s, t, i);
      assert Arrivals(t) == Arrivals(s);
    }
  }

  /** Every atomic operation of every thread keeps the invariant. */
  lemma ActKeeps(s: Barrier, i: nat)
    requires Inv(s) && i < |s.pcs|
    ensures Inv(Act(s, i))
  {
    match s.pcs[i]
    case Running => EnterKeeps(s, i);
    case Loaded(_) => ArriveKeeps(s, i);
    case Last => ResetKeeps(s, i);
    case Reset => BumpKeeps(s, i);
    case Spinning(_) => SpinKeeps(s, i);
  }

  // --- what the invariant means ---

  /** Barrier calls thread i has arrived at: those it returned from, and the one it is counted in. */
  function ArrivedAt(s: Barrier, i: nat): nat
    requires i < |s.pcs| == |s.passed|
  {
    s.passed[i] + (if s.pcs[i].Running? || s.pcs[i].Loaded? then 0 else 1)
  }

  /** The number counts one more where the thread is counted, or returns at once alone, and nowhere else. */
  lemma ArrivalCounts(s: Barrier, i: nat, j: nat)
    requires Inv(s) && i < |s.pcs| && j < |s.pcs|
    ensures ArrivedAt(Act(s, i), j) == ArrivedAt(s, j)
      + if j == i && (Act(s, i).count == s.count + 1 || (s.pcs[i].Running? && |s.pcs| == 1)) then 1 else 0
    ensures s.pcs[i].Running? ==> ArrivedAt(s, i) == s.passed[i]
  {
  }

  /** No thread leaves a round before every thread has arrived at it. */
  lemma NoEarlyLeave(s: Barrier, i: nat, j: nat)
    requires Inv(s) && i < |s.pcs| && j < |s.pcs|
    ensures s.passed[i] <= ArrivedAt(s, j)
  {
    assert Placed(s, i) && Placed(s, j);
  }

  /** Threads outside the barrier, or only about to be counted, are all in the same round. */
  lemma RunnersAgree(s: Barrier, i: nat)
    requires Inv(s) && i < |s.pcs| && !s.pcs[i].Spinning?
    ensures s.passed[i] == s.rounds
  {
    assert Placed(s, i);
  }

  /** The reset of the counter loses no arrival: when it happens nobody is between load and count. */
  lemma ResetLosesNothing(s: Barrier, i: nat, j: nat)
    requires Inv(s) && i < |s.pcs| && (s.pcs[i].Last? || s.pcs[i].Reset?) && j < |s.pcs|
    ensures !s.pcs[j].Loaded? && !s.pcs[j].Running?
  {
    if j != i {
      assert OthersWait(s, i);
      assert Waiting(s, j);
    }
  }

  lemma AllWaiting(s: Barrier)
    requires |s.pcs| == |s.passed| && forall i: nat :: i < |s.pcs| ==> Waiting(s, i)
    ensures |Arrivals(s)| == |s.pcs| && forall i: nat :: i < |s.pcs| ==> s.pcs[i].Spinning?
  {
    ThreadsSize(|s.pcs|);
    assert Arrivals(s) == Threads(|s.pcs|);
    forall i: nat | i < |s.pcs| ensures s.pcs[i].Spinning? { assert Waiting(s, i); }
  }

  /** When every thread is inside the barrier some thread's next operation changes the state. */
  lemma NeverStuck(s: Barrier)
    requires Inv(s) && forall i: nat :: i < |s.pcs| ==> !s.pcs[i].Running?
    ensures exists i: nat :: i < |s.pcs| && Act(s, i) != s
  {
    if forall i: nat :: i < |s.pcs| ==> Waiting(s, i) {
      AllWaiting(s);
      assert false;
    } else {
      var i: nat :| i < |s.pcs| && !Waiting(s, i);
      assert Placed(s, i);
      assert Act(s, i).pcs[i] != s.pcs[i];
    }
  }
}
