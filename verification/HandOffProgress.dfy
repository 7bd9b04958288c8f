/** Progress of the hand-off: workers and signals alone serve everything that was handed over. */
module HandOffProgress {
  import opened HandOff

  /** A thread whose moves serve clients: a worker, or a producer about to signal. */
  predicate Serves(pc: Pc) {
    Worker(pc) || pc.Signalling?
  }

  /** How many moves a thread can make before it has to wait. */
  function Rank(pc: Pc): nat {
    match pc
    case Signalling => 5
    case WorkTop => 1
    case Draining => 2
    case Serving(_) => 4
    case Returning(_) => 3
    case _ => 0
  }

  ghost function Ranks(threads: seq<Pc>): nat {
    if threads == [] then 0 else Ranks(threads[..|threads| - 1]) + Rank(threads[|threads| - 1])
  }

  lemma {:induction false} RanksMove(threads: seq<Pc>, i: nat, pc: Pc)
    requires i < |threads|
    ensures Ranks(threads[i := pc]) == Ranks(threads) - Rank(threads[i]) + Rank(pc)
  {
    hide Rank;
    var n := |threads| - 1;
    if i == n {
      assert threads[i := pc][..n] == threads[..n];
    } else {
      RanksMove(threads[..n], i, pc);
      assert threads[i := pc][..n] == threads[..n][i := pc];
    }
  }

  /** Bounds the moves that serve clients without a new hand-over. */
  ghost function Effort(s: State): nat {
    3 * |s.pending| + (if s.triggered then 4 else 0) + Ranks(s.threads)
  }

  /** Every serving move that changes anything uses up effort. */
  lemma ServingCosts(s: State, t: State, i: nat, e: Event)
    requires i < |s.threads| && Serves(s.threads[i]) && Step(s, t, i, e) && t != s
    ensures Effort(t) < Effort(s)
  {
    hide Ranks;
    RanksMove(s.threads, i, t.threads[i]);
    assert t.threads == s.threads[i := t.threads[i]];
  }

  ghost predicate ServingStep(s: State, t: State) {
    t != s && exists i: nat, e :: i < |s.threads| && Serves(s.threads[i]) && Step(s, t, i, e)
  }

  /** Successive states, each reached by a serving move. */
  ghost predicate ServingRun(r: seq<State>) {
    |r| > 0 && forall k :: 0 <= k < |r| - 1 ==> ServingStep(r[k], r[k + 1])
  }

  /** Whatever the order of moves, serving comes to rest after at most `Effort` of them. */
  lemma {:induction false} ServingEnds(r: seq<State>)
    requires ServingRun(r)
    ensures |r| - 1 + Effort(r[|r| - 1]) <= Effort(r[0])
    decreases |r|
  {
    hide Step, Effort, Serves;
    if |r| > 1 {
      var n := |r| - 1;
      forall k | 0 <= k < |r[..n]| - 1 ensures ServingStep(r[..n][k], r[..n][k + 1]) {
        assert ServingStep(r[k], r[k + 1]);
      }
      ServingEnds(r[..n]);
      assert ServingStep(r[n - 1], r[n]);
      var i: nat, e :| i < |r[n - 1].threads| && Serves(r[n - 1].threads[i]) && Step(r[n - 1], r[n], i, e);
      ServingCosts(r[n - 1], r[n], i, e);
    }
  }

  /** At rest with a worker alive, every client that was handed over has been served. */
  lemma RestIsServed(r: seq<State>, k: nat, w: nat)
    requires Run(r) && k < |r|
    requires w < |r[k].threads| && Worker(r[k].threads[w]) && !r[k].threads[w].WorkDone?
    requires forall i: nat :: i < |r[k].threads| && Serves(r[k].threads[i]) ==> !CanMove(r[k], i)
    ensures r[k].pending == [] && r[k].served == r[k].handed
  {
    if r[k].pending != [] { NoLostWakeup(r, k, w); }
    ServedInOrder(r, k);
  }

  /** A serving thread that can move has a step that changes something. */
  lemma CanMoveMoves(r: seq<State>, k: nat, i: nat) returns (t: State)
    requires Run(r) && k < |r| && i < |r[k].threads| && Serves(r[k].threads[i]) && CanMove(r[k], i)
    ensures ServingStep(r[k], t)
  {
    RunInv(r, k);
    var s := r[k];
    var e := Event(true, 0);
    match s.threads[i] {
      case Signalling => t := Move(s.(triggered := true), i, CommTop);
      case WorkTop => t := Move(s, i, if s.exiting then WorkDone else Waiting);
      case Waiting => t := Move(s.(triggered := false), i, Draining);
      case Draining =>
        t := if s.pending == [] then Move(s, i, WorkTop)
             else Move(s.(pending := s.pending[1..], served := s.served + [s.socket[s.pending[0]]]),
                       i, Serving(s.pending[0]));
      case Serving(b) => t := Move(s, i, Returning(b));
      case Returning(b) => t := Move(s.(free := s.free + [b]), i, Draining);
    }
    assert t.threads[i] != s.threads[i];
    assert Step(s, t, i, e);
  }
}
