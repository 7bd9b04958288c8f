/** The hand-off of client buffers between communication threads and worker threads, as atomic steps
    of any number of threads. A buffer is named by its position in the order of allocation. */
module HandOff {
  import opened Common

  type Buffer = nat
  type Socket = int

  /** Where a thread stands in its loop, and the buffer it holds there. */
  datatype Pc =
    // communication thread
    | CommTop
    | Taking
    | Accepting(buffer: Buffer)
    | SettingTimeout(buffer: Buffer)
    | Handing(buffer: Buffer)
    | Signalling
    | GivingBack(buffer: Buffer)
    | CommDone
    // worker thread
    | WorkTop
    | Waiting
    | Draining
    | Serving(buffer: Buffer)
    | Returning(buffer: Buffer)
    | WorkDone

  /** `handed` and `served` record the sockets of all clients pushed to and popped from `pending`. */
  datatype State = State(
    size: nat,
    free: seq<Buffer>,
    pending: seq<Buffer>,
    triggered: bool,
    exiting: bool,
    threads: seq<Pc>,
    socket: map<Buffer, Socket>,
    handed: seq<Socket>,
    served: seq<Socket>)

  ghost predicate Initial(s: State) {
    && s.free == Numbers(s.size)
    && s.pending == [] && !s.triggered && !s.exiting && s.handed == [] && s.served == []
    && (forall pc :: pc in s.threads ==> pc == CommTop || pc == WorkTop)
    && (forall b: nat :: b in s.socket <==> b < s.size)
  }

  /** What the world decides during a step. */
  datatype Event = Event(ok: bool, socket: Socket)

  function Move(s: State, i: nat, pc: Pc): State
    requires i < |s.threads|
  {
    s.(threads := s.threads[i := pc])
  }

  /** One step of communication thread `i`; a blocked thread stays where it is. */
  ghost predicate CommStep(s: State, t: State, i: nat, e: Event)
    requires i < |s.threads| && !Worker(s.threads[i])
  {
    match s.threads[i]
    case CommTop => t == Move(s, i, if s.exiting then CommDone else Taking)
    case Taking => t == if s.free == [] then s else Move(s.(free := s.free[1..]), i, Accepting(s.free[0]))
    case Accepting(b) =>
      t == Move(s.(socket := s.socket[b := e.socket]), i, if e.ok then SettingTimeout(b) else GivingBack(b))
    case SettingTimeout(b) => t == Move(s, i, if e.ok then Handing(b) else GivingBack(b))
    case Handing(b) =>
      b in s.socket &&
      t == if |s.pending| == s.size then s
           else Move(s.(pending := s.pending + [b], handed := s.handed + [s.socket[b]]), i, Signalling)
    case Signalling => t == Move(s.(triggered := true), i, CommTop)
    case GivingBack(b) => t == if |s.free| == s.size then s else Move(s.(free := s.free + [b]), i, CommTop)
    case CommDone => t == s
  }

  /** One step of worker thread `i`. */
  ghost predicate WorkStep(s: State, t: State, i: nat)
    requires i < |s.threads| && Worker(s.threads[i])
  {
    match s.threads[i]
    case WorkTop => t == Move(s, i, if s.exiting then WorkDone else Waiting)
    case Waiting => t == if s.triggered then Move(s.(triggered := false), i, Draining) else s
    case Draining =>
      (s.pending != [] ==> s.pending[0] in s.socket) &&
      t == if s.pending == [] then Move(s, i, WorkTop)
           else Move(s.(pending := s.pending[1..], served := s.served + [s.socket[s.pending[0]]]),
                     i, Serving(s.pending[0]))
    case Serving(b) => t == Move(s, i, Returning(b))
    case Returning(b) => t == if |s.free| == s.size then s else Move(s.(free := s.free + [b]), i, Draining)
    case WorkDone => t == s
  }

  predicate Worker(pc: Pc) {
    pc.WorkTop? || pc.Waiting? || pc.Draining? || pc.Serving? || pc.Returning? || pc.WorkDone?
  }

  ghost predicate Step(s: State, t: State, i: nat, e: Event)
    requires i < |s.threads|
  {
    if Worker(s.threads[i]) then WorkStep(s, t, i) else CommStep(s, t, i, e)
  }

  ghost predicate Next(s: State, t: State) {
    t == s.(exiting := true) || exists i: nat, e :: i < |s.threads| && Step(s, t, i, e)
  }

  predicate Holds(pc: Pc) {
    pc.Accepting? || pc.SettingTimeout? || pc.Handing? || pc.GivingBack? || pc.Serving? || pc.Returning?
  }

  /** How many of `threads` have buffer `b` in hand. */
  ghost function Hands(threads: seq<Pc>, b: Buffer): nat {
    if threads == [] then 0
    else
      var pc := threads[|threads| - 1];
      Hands(threads[..|threads| - 1], b) + if Holds(pc) && pc.buffer == b then 1 else 0
  }

  ghost function AllHands(threads: seq<Pc>): nat {
    if threads == [] then 0
    else AllHands(threads[..|threads| - 1]) + if Holds(threads[|threads| - 1]) then 1 else 0
  }

  lemma {:induction false} HandsMove(threads: seq<Pc>, i: nat, pc: Pc, b: Buffer)
    requires i < |threads|
    ensures (Hands(threads[i := pc], b) ==
      Hands(threads, b) - (if Holds(threads[i]) && threads[i].buffer == b then 1 else 0) +
      (if Holds(pc) && pc.buffer == b then 1 else 0))
  {
    hide Holds;
    var n := |threads| - 1;
    if i == n {
      assert threads[i := pc][..n] == threads[..n];
    } else {
      HandsMove(threads[..n], i, pc, b);
      assert threads[i := pc][..n] == threads[..n][i := pc];
    }
  }

  lemma {:induction false} AllHandsMove(threads: seq<Pc>, i: nat, pc: Pc)
    requires i < |threads|
    ensures (AllHands(threads[i := pc]) ==
      AllHands(threads) - (if Holds(threads[i]) then 1 else 0) + (if Holds(pc) then 1 else 0))
  {
    hide Holds;
    var n := |threads| - 1;
    if i == n {
      assert threads[i := pc][..n] == threads[..n];
    } else {
      AllHandsMove(threads[..n], i, pc);
      assert threads[i := pc][..n] == threads[..n][i := pc];
    }
  }

  /** In how many places buffer `b` is: the free queue, the pending queue, the hands of threads. */
  ghost function Places(s: State, b: Buffer): nat {
    multiset(s.free)[b] + multiset(s.pending)[b] + Hands(s.threads, b)
  }

  /** Every buffer is in exactly one place, and there are no others. */
  ghost predicate Conserved(s: State) {
    && (forall b: nat :: Places(s, b) == if b < s.size then 1 else 0)
    && |s.free| + |s.pending| + AllHands(s.threads) == s.size
  }

  /** A thread that will make sure the pending queue is looked at. */
  predicate Attentive(pc: Pc) {
    pc.Signalling? || pc.Draining? || pc.Serving? || pc.Returning?
  }

  ghost predicate Watched(s: State) {
    s.pending != [] ==> s.triggered || exists i: nat :: i < |s.threads| && Attentive(s.threads[i])
  }

  ghost function Sockets(s: State, bs: seq<Buffer>): seq<Socket>
    requires forall b :: b in bs ==> b in s.socket
  {
    seq(|bs|, k requires 0 <= k < |bs| => s.socket[bs[k]])
  }

  ghost predicate Known(s: State) {
    forall b: nat :: b in s.socket <==> b < s.size
  }

  /** Clients leave the pending queue in the order they entered it, each once, with the socket they entered with. */
  ghost predicate InOrder(s: State) {
    (forall b :: b in s.pending ==> b in s.socket) && s.handed == s.served + Sockets(s, s.pending)
  }

  ghost predicate Inv(s: State) {
    Known(s) && Conserved(s) && Watched(s) && InOrder(s)
  }

  lemma {:induction false} HandsAtLeast(threads: seq<Pc>, i: nat)
    requires i < |threads| && Holds(threads[i])
    ensures Hands(threads, threads[i].buffer) >= 1 && AllHands(threads) >= 1
  {
    if i < |threads| - 1 { HandsAtLeast(threads[..|threads| - 1], i); }
  }

  lemma {:induction false} HandsInitially(threads: seq<Pc>, b: Buffer)
    requires forall pc :: pc in threads ==> !Holds(pc)
    ensures Hands(threads, b) == 0 && AllHands(threads) == 0
  {
    if threads != [] { HandsInitially(threads[..|threads| - 1], b); }
  }

  lemma {:induction false} Identity(n: nat, b: nat)
    ensures multiset(Numbers(n))[b] == if b < n then 1 else 0
  {
    if n > 0 {
      Identity(n - 1, b);
      assert Numbers(n) == Numbers(n - 1) + [n - 1];
    }
  }

  lemma InitialInv(s: State)
    requires Initial(s)
    ensures Inv(s)
  {
    forall b: nat ensures Places(s, b) == if b < s.size then 1 else 0 {
      Identity(s.size, b);
      HandsInitially(s.threads, b);
    }
    HandsInitially(s.threads, 0);
  }

  /** What a step does to the queues, seen without the program text. */
  datatype Kind = Stay | Turn | TakeFree | GiveFree | PushPending | PopPending

  /** A step moves one thread only. */
  ghost predicate Moves(s: State, t: State, i: nat) {
    && i < |s.threads| == |t.threads| && t.size == s.size
    && forall j: nat :: j < |s.threads| && j != i ==> t.threads[j] == s.threads[j]
  }

  ghost predicate Does(s: State, t: State, i: nat, k: Kind) {
    && i < |s.threads| && i < |t.threads|
    && var pc, pd := s.threads[i], t.threads[i];
    match k
    case Stay => t == s
    case Turn =>
      t.free == s.free && t.pending == s.pending && Holds(pc) == Holds(pd) && (Holds(pc) ==> pc.buffer == pd.buffer)
    case TakeFree => !Holds(pc) && Holds(pd) && s.free == [pd.buffer] + t.free && t.pending == s.pending
    case GiveFree => Holds(pc) && !Holds(pd) && t.free == s.free + [pc.buffer] && t.pending == s.pending
    case PushPending => Holds(pc) && !Holds(pd) && t.pending == s.pending + [pc.buffer] && t.free == s.free
    case PopPending => !Holds(pc) && Holds(pd) && s.pending == [pd.buffer] + t.pending && t.free == s.free
  }

  function KindOf(s: State, t: State, i: nat): Kind
    requires i < |s.threads|
  {
    if s == t then Stay
    else match s.threads[i]
    case Taking => TakeFree
    case Handing(_) => PushPending
    case GivingBack(_) => GiveFree
    case Returning(_) => GiveFree
    case Draining => if s.pending == [] then Turn else PopPending
    case _ => Turn
  }

  lemma CommMoves(s: State, t: State, i: nat, e: Event)
    requires i < |s.threads| && !Worker(s.threads[i]) && CommStep(s, t, i, e)
    ensures Moves(s, t, i)
  {
  }

  lemma WorkMoves(s: State, t: State, i: nat)
    requires i < |s.threads| && Worker(s.threads[i]) && WorkStep(s, t, i)
    ensures Moves(s, t, i)
  {
  }

  lemma CommKind(s: State, t: State, i: nat, e: Event)
    requires i < |s.threads| && !Worker(s.threads[i]) && CommStep(s, t, i, e)
    ensures Does(s, t, i, KindOf(s, t, i))
  {
  }

  lemma WorkKind(s: State, t: State, i: nat)
    requires i < |s.threads| && Worker(s.threads[i]) && WorkStep(s, t, i)
    ensures Does(s, t, i, KindOf(s, t, i))
  {
  }

  /** No step changes in how many places a buffer is. */
  lemma StepPlaces(s: State, t: State, i: nat, k: Kind, b: Buffer)
    requires Moves(s, t, i) && Does(s, t, i, k)
    ensures Places(t, b) == Places(s, b)
  {
    hide Holds, Hands;
    HandsMove(s.threads, i, t.threads[i], b);
    assert t.threads == s.threads[i := t.threads[i]];
  }

  lemma StepCount(s: State, t: State, i: nat, k: Kind)
    requires Moves(s, t, i) && Does(s, t, i, k)
    ensures |t.free| + |t.pending| + AllHands(t.threads) == |s.free| + |s.pending| + AllHands(s.threads)
  {
    hide Holds, AllHands;
    AllHandsMove(s.threads, i, t.threads[i]);
    assert t.threads == s.threads[i := t.threads[i]];
  }

  lemma StepConserves(s: State, t: State, i: nat, k: Kind)
    requires Moves(s, t, i) && Does(s, t, i, k) && Conserved(s)
    ensures Conserved(t)
  {
    hide Places, Does;
    forall b: nat ensures Places(t, b) == if b < t.size then 1 else 0 { StepPlaces(s, t, i, k, b); }
    StepCount(s, t, i, k);
  }

  /** What a step leaves of the watch over the pending queue. */
  ghost predicate Watches(s: State, t: State, i: nat) {
    && i < |s.threads| && i < |t.threads|
    && (t.pending == [] || t.triggered || Attentive(t.threads[i]) ||
        (s.pending != [] && !s.triggered && !Attentive(s.threads[i])))
  }

  lemma CommWatches(s: State, t: State, i: nat, e: Event)
    requires i < |s.threads| && !Worker(s.threads[i]) && CommStep(s, t, i, e)
    ensures Watches(s, t, i)
  {
  }

  lemma WorkWatches(s: State, t: State, i: nat)
    requires i < |s.threads| && Worker(s.threads[i]) && WorkStep(s, t, i)
    ensures Watches(s, t, i)
  {
  }

  lemma StepWatches(s: State, t: State, i: nat)
    requires Moves(s, t, i) && Watches(s, t, i) && Watched(s)
    ensures Watched(t)
  {
    if t.pending != [] && !t.triggered && !Attentive(t.threads[i]) {
      var j: nat :| j < |s.threads| && Attentive(s.threads[j]);
      assert Attentive(t.threads[j]);
    }
  }

  /** Everything the invariant needs to know about a step. */
  lemma StepFacts(s: State, t: State, i: nat, e: Event)
    requires i < |s.threads| && Step(s, t, i, e)
    requires Holds(s.threads[i]) ==> s.threads[i].buffer in s.socket
    ensures Moves(s, t, i) && Does(s, t, i, KindOf(s, t, i)) && Logs(s, t, i, KindOf(s, t, i)) && Watches(s, t, i)
  {
    hide Moves, Does, Logs, Watches, CommStep, WorkStep;
    if Worker(s.threads[i]) {
      WorkMoves(s, t, i); WorkKind(s, t, i); WorkLogs(s, t, i); WorkWatches(s, t, i);
    } else {
      CommMoves(s, t, i, e); CommKind(s, t, i, e); CommLogs(s, t, i, e); CommWatches(s, t, i, e);
    }
  }

  /** A buffer in a thread's hands is in neither queue. */
  lemma HandsOnly(s: State, i: nat)
    requires Conserved(s) && i < |s.threads| && Holds(s.threads[i])
    ensures s.threads[i].buffer < s.size && s.threads[i].buffer !in s.free && s.threads[i].buffer !in s.pending
  {
    var b := s.threads[i].buffer;
    HandsAtLeast(s.threads, i);
    assert Places(s, b) == if b < s.size then 1 else 0;
    assert b in s.free ==> b in multiset(s.free);
    assert b in s.pending ==> b in multiset(s.pending);
  }

  /** What a step of kind `k` does to the sockets and the record of clients. */
  ghost predicate Logs(s: State, t: State, i: nat, k: Kind) {
    && i < |s.threads|
    && (forall b :: b in t.socket <==> b in s.socket || (Holds(s.threads[i]) && b == s.threads[i].buffer))
    && (forall b :: b in s.socket && !(Holds(s.threads[i]) && b == s.threads[i].buffer) ==> t.socket[b] == s.socket[b])
    && match k
       case PushPending =>
         Holds(s.threads[i]) && s.threads[i].buffer in s.socket && t.socket == s.socket &&
         t.handed == s.handed + [s.socket[s.threads[i].buffer]] && t.served == s.served
       case PopPending =>
         s.pending != [] && s.pending[0] in s.socket && t.handed == s.handed &&
         t.served == s.served + [s.socket[s.pending[0]]]
       case _ => t.handed == s.handed && t.served == s.served
  }

  lemma CommLogs(s: State, t: State, i: nat, e: Event)
    requires i < |s.threads| && !Worker(s.threads[i]) && CommStep(s, t, i, e)
    requires Holds(s.threads[i]) ==> s.threads[i].buffer in s.socket
    ensures Logs(s, t, i, KindOf(s, t, i))
  {
  }

  lemma WorkLogs(s: State, t: State, i: nat)
    requires i < |s.threads| && Worker(s.threads[i]) && WorkStep(s, t, i)
    requires Holds(s.threads[i]) ==> s.threads[i].buffer in s.socket
    ensures Logs(s, t, i, KindOf(s, t, i))
  {
  }

  lemma SameSockets(s: State, t: State, bs: seq<Buffer>)
    requires forall b :: b in bs ==> b in s.socket && b in t.socket && s.socket[b] == t.socket[b]
    ensures Sockets(s, bs) == Sockets(t, bs)
  {
  }

  lemma SocketsCat(s: State, a: seq<Buffer>, b: seq<Buffer>)
    requires forall x :: x in a + b ==> x in s.socket
    ensures (forall x :: x in a ==> x in s.socket) && (forall x :: x in b ==> x in s.socket)
    ensures Sockets(s, a + b) == Sockets(s, a) + Sockets(s, b)
  {
    forall x | x in a ensures x in s.socket { assert x in a + b; }
    forall x | x in b ensures x in s.socket { assert x in a + b; }
  }

  lemma StepInOrder(s: State, t: State, i: nat, k: Kind)
    requires Moves(s, t, i) && Does(s, t, i, k) && Logs(s, t, i, k) && Known(s) && Conserved(s) && InOrder(s)
    ensures Known(t) && InOrder(t)
  {
    hide Conserved, Sockets;
    if Holds(s.threads[i]) { HandsOnly(s, i); }
    SameSockets(s, t, s.pending);
    if k == PushPending {
      SocketsCat(t, s.pending, [s.threads[i].buffer]);
      OneSocket(t, s.threads[i].buffer);
    } else if k == PopPending {
      SocketsCat(t, [s.pending[0]], t.pending);
      OneSocket(t, s.pending[0]);
    }
  }

  lemma OneSocket(s: State, b: Buffer)
    requires b in s.socket
    ensures Sockets(s, [b]) == [s.socket[b]]
  {
  }

  lemma HeldKnown(s: State, i: nat)
    requires Known(s) && Conserved(s) && i < |s.threads|
    ensures Holds(s.threads[i]) ==> s.threads[i].buffer in s.socket
  {
    if Holds(s.threads[i]) { HandsOnly(s, i); }
  }

  lemma NextInv(s: State, t: State)
    requires Inv(s) && Next(s, t)
    ensures Inv(t)
  {
    if t == s.(exiting := true) {
      forall b: nat ensures Places(t, b) == Places(s, b) { }
      assert Sockets(t, t.pending) == Sockets(s, s.pending);
    } else {
      hide Step, Moves, Does, Logs, Watches, Conserved, Watched, InOrder;
      var i: nat, e :| i < |s.threads| && Step(s, t, i, e);
      HeldKnown(s, i);
      StepFacts(s, t, i, e);
      StepConserves(s, t, i, KindOf(s, t, i));
      StepWatches(s, t, i);
      StepInOrder(s, t, i, KindOf(s, t, i));
    }
  }

  ghost predicate Run(r: seq<State>) {
    |r| > 0 && Initial(r[0]) && forall k :: 0 <= k < |r| - 1 ==> Next(r[k], r[k + 1])
  }

  /** The invariant holds in every state of every interleaving. */
  lemma {:induction false} RunInv(r: seq<State>, k: nat)
    requires Run(r) && k < |r|
    ensures Inv(r[k])
  {
    hide Inv, Initial;
    if k == 0 { InitialInv(r[0]); } else { RunInv(r, k - 1); NextInv(r[k - 1], r[k]); }
  }

  /** Whenever a thread is about to push, there is room. */
  lemma NeverFull(r: seq<State>, k: nat, i: nat)
    requires Run(r) && k < |r| && i < |r[k].threads|
    ensures r[k].threads[i].Handing? ==> |r[k].pending| < r[k].size
    ensures r[k].threads[i].GivingBack? || r[k].threads[i].Returning? ==> |r[k].free| < r[k].size
  {
    RunInv(r, k);
    if Holds(r[k].threads[i]) { HandsAtLeast(r[k].threads, i); }
  }

  lemma {:induction false} TwoHands(threads: seq<Pc>, i: nat, j: nat)
    requires i < j < |threads| && Holds(threads[i]) && Holds(threads[j]) && threads[i].buffer == threads[j].buffer
    ensures Hands(threads, threads[i].buffer) >= 2
  {
    var n := |threads| - 1;
    if j < n { TwoHands(threads[..n], i, j); } else { HandsAtLeast(threads[..n], i); }
  }

  lemma TwiceInQueue(q: seq<Buffer>, i: nat, j: nat)
    requires i < j < |q| && q[i] == q[j]
    ensures multiset(q)[q[i]] >= 2
  {
    assert q == q[..j] + [q[j]] + q[j + 1..];
    assert q[i] in q[..j];
  }

  /** Two different places never show the same buffer, and no buffer is lost. */
  lemma OnePlace(r: seq<State>, k: nat)
    requires Run(r) && k < |r|
    ensures var s := r[k];
      && (forall i, j :: 0 <= i < j < |s.free| ==> s.free[i] != s.free[j])
      && (forall i, j :: 0 <= i < j < |s.pending| ==> s.pending[i] != s.pending[j])
      && (forall b :: b in s.free ==> b !in s.pending)
      && (forall i: nat :: i < |s.threads| && Holds(s.threads[i]) ==>
            s.threads[i].buffer !in s.free && s.threads[i].buffer !in s.pending)
      && (forall i: nat, j: nat :: i < j < |s.threads| && Holds(s.threads[i]) && Holds(s.threads[j]) ==>
            s.threads[i].buffer != s.threads[j].buffer)
      && |s.free| + |s.pending| + AllHands(s.threads) == s.size
  {
    RunInv(r, k);
    Exclusive(r[k]);
    forall i: nat | i < |r[k].threads| && Holds(r[k].threads[i])
      ensures r[k].threads[i].buffer !in r[k].free && r[k].threads[i].buffer !in r[k].pending { HandsOnly(r[k], i); }
  }

  lemma Exclusive(s: State)
    requires Conserved(s)
    ensures forall i, j :: 0 <= i < j < |s.free| ==> s.free[i] != s.free[j]
    ensures forall i, j :: 0 <= i < j < |s.pending| ==> s.pending[i] != s.pending[j]
    ensures forall b :: b in s.free ==> b !in s.pending
    ensures (forall i: nat, j: nat :: i < j < |s.threads| && Holds(s.threads[i]) && Holds(s.threads[j]) ==>
              s.threads[i].buffer != s.threads[j].buffer)
  {
    forall i, j | 0 <= i < j < |s.free| ensures s.free[i] != s.free[j] {
      assert Places(s, s.free[i]) <= 1;
      if s.free[i] == s.free[j] { TwiceInQueue(s.free, i, j); }
    }
    forall i, j | 0 <= i < j < |s.pending| ensures s.pending[i] != s.pending[j] {
      assert Places(s, s.pending[i]) <= 1;
      if s.pending[i] == s.pending[j] { TwiceInQueue(s.pending, i, j); }
    }
    forall b | b in s.free ensures b !in s.pending {
      assert b in multiset(s.free) && (b in s.pending ==> b in multiset(s.pending));
      assert Places(s, b) <= 1;
    }
    forall i: nat, j: nat | i < j < |s.threads| && Holds(s.threads[i]) && Holds(s.threads[j])
      ensures s.threads[i].buffer != s.threads[j].buffer
    {
      assert Places(s, s.threads[i].buffer) <= 1;
      if s.threads[i].buffer == s.threads[j].buffer { TwoHands(s.threads, i, j); }
    }
  }

  /** Thread `i` is not blocked on a queue or on the trigger. */
  predicate CanMove(s: State, i: nat)
    requires i < |s.threads|
  {
    match s.threads[i]
    case Taking => s.free != []
    case Handing(_) => |s.pending| < s.size
    case GivingBack(_) => |s.free| < s.size
    case Returning(_) => |s.free| < s.size
    case Waiting => s.triggered
    case CommDone => false
    case WorkDone => false
    case _ => true
  }

  /** While clients are pending, a signal is pending, a producer is about to signal, or a worker is draining. */
  lemma PendingIsWatched(r: seq<State>, k: nat)
    requires Run(r) && k < |r| && r[k].pending != []
    ensures r[k].triggered || exists i: nat :: i < |r[k].threads| && Attentive(r[k].threads[i])
  {
    RunInv(r, k);
  }

  /** No lost wake-up: while a client is pending and a worker lives, some thread that will see to it can move. */
  lemma NoLostWakeup(r: seq<State>, k: nat, w: nat)
    requires Run(r) && k < |r|
    requires w < |r[k].threads| && Worker(r[k].threads[w]) && !r[k].threads[w].WorkDone?
    requires r[k].pending != []
    ensures (exists i: nat :: i < |r[k].threads| && CanMove(r[k], i) &&
              (Attentive(r[k].threads[i]) || (r[k].triggered && Worker(r[k].threads[i]))))
  {
    RunInv(r, k);
    var i: nat := w;
    if !r[k].triggered { i :| i < |r[k].threads| && Attentive(r[k].threads[i]); }
    NeverFull(r, k, i);
    assert CanMove(r[k], i);
  }

  /** Every client handed over so far was served in that order or is still pending. */
  lemma ServedInOrder(r: seq<State>, k: nat)
    requires Run(r) && k < |r|
    ensures r[k].served <= r[k].handed && |r[k].handed| == |r[k].served| + |r[k].pending|
  {
    RunInv(r, k);
  }
}
