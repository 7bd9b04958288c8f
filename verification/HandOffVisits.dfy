/** What becomes of a client: passes of one thread through its loop, with any steps of other threads in between. */
module HandOffVisits {
  import opened Common
  import opened HandOff

  ghost predicate Acts(r: seq<State>, k: nat, i: nat, e: Event) {
    k + 1 < |r| && i < |r[k].threads| && Step(r[k], r[k + 1], i, e)
  }

  ghost predicate AtPlace(s: State, i: nat, pc: Pc) {
    i < |s.threads| && s.threads[i] == pc
  }

  /** Thread `i` takes step `k` of the run and stays where that leads until step `l`. */
  ghost predicate StaysUntil(r: seq<State>, i: nat, k: nat, l: nat) {
    && k < l < |r| && i < |r[l].threads|
    && forall n :: k < n <= l ==> AtPlace(r[n], i, r[l].threads[i])
  }

  /** The next steps of thread `i`, those at positions `at` of the run, in which the world decides `es`. */
  ghost predicate Visit(r: seq<State>, i: nat, at: seq<nat>, es: seq<Event>) {
    && Run(r) && |es| == |at|
    && (forall n :: 0 <= n < |at| ==> at[n] + 1 < |r|)
    && (forall n :: 0 <= n < |at| ==> Acts(r, at[n], i, es[n]))
    && (forall m, n :: 0 <= m && n == m + 1 && n < |at| ==> StaysUntil(r, i, at[m], at[n]))
  }

  lemma ActsAt(r: seq<State>, i: nat, at: seq<nat>, es: seq<Event>, n: nat, pc: Pc)
    requires Visit(r, i, at, es) && n < |at| && AtPlace(r[at[n]], i, pc)
    ensures n < |es| && at[n] + 1 < |r| && i < |r[at[n]].threads| && r[at[n]].threads[i] == pc
    ensures Step(r[at[n]], r[at[n] + 1], i, es[n])
  {
    hide Step, Run;
    assert Acts(r, at[n], i, es[n]);
  }

  lemma GoesOn(r: seq<State>, i: nat, at: seq<nat>, es: seq<Event>, n: nat, pc: Pc)
    requires Visit(r, i, at, es) && n + 1 < |at| && at[n] + 1 < |r| && AtPlace(r[at[n] + 1], i, pc)
    ensures at[n] < at[n + 1] < |r| && AtPlace(r[at[n + 1]], i, pc)
    ensures forall k :: at[n] < k <= at[n + 1] ==> AtPlace(r[k], i, pc)
  {
    hide Step, Run;
    var next, first := n + 1, at[n] + 1;
    assert StaysUntil(r, i, at[n], at[next]);
    assert AtPlace(r[first], i, r[at[next]].threads[i]);
  }

  // ---------------------------------------------------------------- sockets

  /** A thread with a buffer in hand either moves on or has to wait. */
  lemma HoldingWaits(s: State, t: State, i: nat, e: Event)
    requires i < |s.threads| && Holds(s.threads[i]) && Step(s, t, i, e) && AtPlace(t, i, s.threads[i])
    ensures t == s
  {
  }

  /** Nobody else touches the socket of a buffer in hand. */
  lemma SocketStays(s: State, t: State, i: nat)
    requires Inv(s) && Next(s, t) && i < |s.threads| && Holds(s.threads[i]) && AtPlace(t, i, s.threads[i])
    ensures s.threads[i].buffer in s.socket && s.threads[i].buffer in t.socket
    ensures t.socket[s.threads[i].buffer] == s.socket[s.threads[i].buffer]
  {
    hide Step, Conserved, Watched, InOrder, Does, Watches, Holds;
    HeldKnown(s, i);
    if t != s.(exiting := true) {
      var j: nat, e :| j < |s.threads| && Step(s, t, j, e);
      if j == i {
        HoldingWaits(s, t, i, e);
      } else {
        HeldKnown(s, j);
        StepFacts(s, t, j, e);
        OtherBuffer(s, i, j);
      }
    }
  }

  lemma OtherBuffer(s: State, i: nat, j: nat)
    requires Conserved(s) && i < |s.threads| && j < |s.threads| && i != j && Holds(s.threads[i])
    ensures Holds(s.threads[j]) ==> s.threads[j].buffer != s.threads[i].buffer
  {
    hide Conserved;
    Exclusive(s);
  }

  lemma {:induction false} SocketKept(r: seq<State>, i: nat, k: nat, l: nat, pc: Pc)
    requires Run(r) && k <= l < |r| && Holds(pc) && forall n :: k <= n <= l ==> AtPlace(r[n], i, pc)
    ensures pc.buffer in r[k].socket && pc.buffer in r[l].socket && r[l].socket[pc.buffer] == r[k].socket[pc.buffer]
    decreases l - k
  {
    hide Inv, Next, Initial, Holds;
    if k == l {
      RunInv(r, k);
      InHand(r[k], i);
    } else {
      var m := l - 1;
      SocketKept(r, i, k, m, pc);
      RunInv(r, m);
      assert Next(r[m], r[m + 1]);
      assert AtPlace(r[m], i, pc) && AtPlace(r[l], i, pc);
      SocketStays(r[m], r[l], i);
    }
  }

  lemma InHand(s: State, i: nat)
    requires Inv(s) && i < |s.threads| && Holds(s.threads[i])
    ensures s.threads[i].buffer in s.socket
  {
    HeldKnown(s, i);
  }

  // ---------------------------------------------------------------- a client that is accepted

  /** Thread `i` is at the top of its loop, is not told to leave, finds a free buffer and accepts a connection. */
  ghost predicate Connects(r: seq<State>, i: nat, at: seq<nat>, es: seq<Event>, b: Buffer) {
    && Visit(r, i, at, es) && |at| >= 4
    && AtPlace(r[at[0]], i, CommTop) && !r[at[0]].exiting
    && r[at[1]].free != [] && r[at[1]].free[0] == b
  }

  lemma Connected(r: seq<State>, i: nat, at: seq<nat>, es: seq<Event>, b: Buffer)
    requires Connects(r, i, at, es, b)
    ensures at[2] + 1 < |r| && r[at[1] + 1].free == r[at[1]].free[1..]
    ensures AtPlace(r[at[2] + 1], i, if es[2].ok then SettingTimeout(b) else GivingBack(b))
    ensures b in r[at[2] + 1].socket && r[at[2] + 1].socket[b] == es[2].socket
  {
    hide Visit, Run, WorkStep;
    ActsAt(r, i, at, es, 0, CommTop);
    GoesOn(r, i, at, es, 0, Taking);
    ActsAt(r, i, at, es, 1, Taking);
    GoesOn(r, i, at, es, 1, Accepting(b));
    ActsAt(r, i, at, es, 2, Accepting(b));
  }

  lemma InRun(r: seq<State>, i: nat, at: seq<nat>, es: seq<Event>, n: nat)
    requires Visit(r, i, at, es) && n < |at|
    ensures Run(r) && |es| == |at| && at[n] + 1 < |r|
  {
    hide Step, Run;
  }

  /** A connection whose timeout is set is handed over with the socket it was accepted on, behind the clients that are
      pending by then, and signalled. */
  lemma AcceptedIsHanded(r: seq<State>, i: nat, at: seq<nat>, es: seq<Event>, b: Buffer)
    requires Connects(r, i, at, es, b) && |at| == 6 && es[2].ok && es[3].ok
    ensures at[4] + 1 < |r| && at[5] + 1 < |r|
    ensures r[at[4] + 1].pending == r[at[4]].pending + [b]
    ensures r[at[4] + 1].handed == r[at[4]].handed + [es[2].socket]
    ensures r[at[5] + 1].triggered && AtPlace(r[at[5] + 1], i, CommTop)
  {
    hide Visit, Run, CommStep, WorkStep;
    Connected(r, i, at, es, b);
    InRun(r, i, at, es, 0);
    GoesOn(r, i, at, es, 2, SettingTimeout(b));
    SocketKept(r, i, at[2] + 1, at[3], SettingTimeout(b));
    ActsAt(r, i, at, es, 3, SettingTimeout(b));
    TimeoutSet(r[at[3]], r[at[3] + 1], i, es[3], b);
    GoesOn(r, i, at, es, 3, Handing(b));
    SocketKept(r, i, at[3] + 1, at[4], Handing(b));
    NeverFull(r, at[4], i);
    ActsAt(r, i, at, es, 4, Handing(b));
    HandsClient(r[at[4]], r[at[4] + 1], i, es[4], b);
    GoesOn(r, i, at, es, 4, Signalling);
    ActsAt(r, i, at, es, 5, Signalling);
    Signals(r[at[5]], r[at[5] + 1], i, es[5]);
  }

  lemma TimeoutSet(s: State, t: State, i: nat, e: Event, b: Buffer)
    requires AtPlace(s, i, SettingTimeout(b)) && Step(s, t, i, e)
    ensures AtPlace(t, i, if e.ok then Handing(b) else GivingBack(b)) && t.socket == s.socket
  {
  }

  lemma HandsClient(s: State, t: State, i: nat, e: Event, b: Buffer)
    requires AtPlace(s, i, Handing(b)) && Step(s, t, i, e) && |s.pending| < s.size
    ensures AtPlace(t, i, Signalling) && b in s.socket
    ensures t.pending == s.pending + [b] && t.handed == s.handed + [s.socket[b]]
  {
  }

  lemma Signals(s: State, t: State, i: nat, e: Event)
    requires AtPlace(s, i, Signalling) && Step(s, t, i, e)
    ensures AtPlace(t, i, CommTop) && t.triggered
  {
  }

  /** The buffer of a connection that fails goes back to the free ones, and nothing is handed over. */
  lemma FailedIsGivenBack(r: seq<State>, i: nat, at: seq<nat>, es: seq<Event>, b: Buffer, last: nat)
    requires Connects(r, i, at, es, b) && last + 1 == |at|
    requires (!es[2].ok && last == 3) || (es[2].ok && !es[3].ok && last == 4)
    ensures at[last] + 1 < |r| && r[at[last] + 1].free == r[at[last]].free + [b]
    ensures r[at[last] + 1].handed == r[at[last]].handed && AtPlace(r[at[last] + 1], i, CommTop)
  {
    hide Visit, Run, CommStep, WorkStep;
    Connected(r, i, at, es, b);
    InRun(r, i, at, es, 0);
    if es[2].ok {
      GoesOn(r, i, at, es, 2, SettingTimeout(b));
      ActsAt(r, i, at, es, 3, SettingTimeout(b));
      TimeoutSet(r[at[3]], r[at[3] + 1], i, es[3], b);
    }
    GoesOn(r, i, at, es, last - 1, GivingBack(b));
    NeverFull(r, at[last], i);
    ActsAt(r, i, at, es, last, GivingBack(b));
    GivesBack(r[at[last]], r[at[last] + 1], i, es[last], b);
  }

  lemma GivesBack(s: State, t: State, i: nat, e: Event, b: Buffer)
    requires AtPlace(s, i, GivingBack(b)) && Step(s, t, i, e) && |s.free| < s.size
    ensures AtPlace(t, i, CommTop) && t.free == s.free + [b] && t.handed == s.handed
  {
  }

  // ---------------------------------------------------------------- a client that is served

  /** A worker that is woken takes the oldest client, serves it, returns its buffer to the free ones and looks for the
      next. */
  lemma PendingIsServed(r: seq<State>, i: nat, at: seq<nat>, es: seq<Event>, b: Buffer)
    requires Visit(r, i, at, es) && |at| == 4 && AtPlace(r[at[0]], i, Waiting) && r[at[0]].triggered
    requires r[at[1]].pending != [] && r[at[1]].pending[0] == b
    ensures at[1] + 1 < |r| && at[3] + 1 < |r| && b in r[at[1]].socket
    ensures r[at[1] + 1].pending == r[at[1]].pending[1..]
    ensures r[at[1] + 1].served == r[at[1]].served + [r[at[1]].socket[b]]
    ensures AtPlace(r[at[1] + 1], i, Serving(b))
    ensures r[at[3] + 1].free == r[at[3]].free + [b] && AtPlace(r[at[3] + 1], i, Draining)
  {
    hide Visit, Run, CommStep, WorkStep;
    InRun(r, i, at, es, 0);
    ActsAt(r, i, at, es, 0, Waiting);
    Wakes(r[at[0]], r[at[0] + 1], i, es[0]);
    GoesOn(r, i, at, es, 0, Draining);
    ActsAt(r, i, at, es, 1, Draining);
    TakesOldest(r[at[1]], r[at[1] + 1], i, es[1]);
    GoesOn(r, i, at, es, 1, Serving(b));
    ActsAt(r, i, at, es, 2, Serving(b));
    Finishes(r[at[2]], r[at[2] + 1], i, es[2], b);
    GoesOn(r, i, at, es, 2, Returning(b));
    NeverFull(r, at[3], i);
    ActsAt(r, i, at, es, 3, Returning(b));
    Returns(r[at[3]], r[at[3] + 1], i, es[3], b);
  }

  lemma Wakes(s: State, t: State, i: nat, e: Event)
    requires AtPlace(s, i, Waiting) && Step(s, t, i, e) && s.triggered
    ensures AtPlace(t, i, Draining) && !t.triggered
  {
  }

  lemma TakesOldest(s: State, t: State, i: nat, e: Event)
    requires AtPlace(s, i, Draining) && Step(s, t, i, e) && s.pending != []
    ensures AtPlace(t, i, Serving(s.pending[0])) && t.pending == s.pending[1..] && s.pending[0] in s.socket
    ensures t.served == s.served + [s.socket[s.pending[0]]]
  {
  }

  lemma Finishes(s: State, t: State, i: nat, e: Event, b: Buffer)
    requires AtPlace(s, i, Serving(b)) && Step(s, t, i, e)
    ensures AtPlace(t, i, Returning(b))
  {
  }

  lemma Returns(s: State, t: State, i: nat, e: Event, b: Buffer)
    requires AtPlace(s, i, Returning(b)) && Step(s, t, i, e) && |s.free| < s.size
    ensures AtPlace(t, i, Draining) && t.free == s.free + [b]
  {
  }

  // ---------------------------------------------------------------- leaving

  predicate Gone(pc: Pc) { pc.CommDone? || pc.WorkDone? }

  lemma CommLeaves(s: State, t: State, i: nat, e: Event)
    requires i < |s.threads| && !Worker(s.threads[i]) && CommStep(s, t, i, e)
    ensures i < |t.threads| && t.exiting == s.exiting
    ensures Gone(t.threads[i]) <==> Gone(s.threads[i]) || (s.exiting && s.threads[i] == CommTop)
  {
  }

  lemma WorkLeaves(s: State, t: State, i: nat)
    requires i < |s.threads| && Worker(s.threads[i]) && WorkStep(s, t, i)
    ensures i < |t.threads| && t.exiting == s.exiting
    ensures Gone(t.threads[i]) <==> Gone(s.threads[i]) || (s.exiting && s.threads[i] == WorkTop)
  {
  }

  /** A thread leaves exactly from the top of its loop once the server is told to stop, and never comes back. */
  lemma LeavesWhenStopped(s: State, t: State, i: nat, e: Event)
    requires i < |s.threads| && Step(s, t, i, e)
    ensures i < |t.threads| && t.exiting == s.exiting
    ensures Gone(t.threads[i]) <==> Gone(s.threads[i]) || (s.exiting && s.threads[i] in {CommTop, WorkTop})
  {
    hide CommStep, WorkStep;
    if Worker(s.threads[i]) { WorkLeaves(s, t, i); } else { CommLeaves(s, t, i, e); }
  }
}
