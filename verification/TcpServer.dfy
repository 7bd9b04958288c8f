/** The server's two queues, trigger and threads, stepped one atomic action at a time.
    Every action is a step of the hand-off protocol on the queues' contents. */
module TcpServer {
  import opened Common
  import opened HandOff
  import opened RingQueue

  const TCP_OK := 0
  const TCP_ERR := -1

  /** `comms` communication threads and `workers` worker threads, all at the top of their loops. */
  function Started(comms: nat, workers: nat): seq<Pc> {
    seq(comms, _ => CommTop) + seq(workers, _ => WorkTop)
  }

  lemma AllAtTop(comms: nat, workers: nat)
    ensures forall pc :: pc in Started(comms, workers) ==> pc == CommTop || pc == WorkTop
    ensures |Started(comms, workers)| == comms + workers
    ensures forall i :: 0 <= i < comms + workers ==> (Started(comms, workers)[i] == CommTop <==> i < comms)
  {
  }

  class QTcpServer {
    var queueSize: int
    var chunkQueue: QQueue<Buffer>
    var clientQueue: QQueue<Buffer>
    var clientTrigger: QTrigger
    var exitFlag: bool
    var threads: seq<Pc>
    var socket: map<Buffer, Socket>
    ghost var handed: seq<Socket>
    ghost var served: seq<Socket>

    ghost function Repr(): set<object>
      reads this, chunkQueue, clientQueue
    {
      {this, chunkQueue, clientQueue, clientTrigger, chunkQueue.queue, clientQueue.queue}
    }

    /** The objects are distinct and the queues have room for all buffers. */
    ghost predicate Formed()
      reads this, chunkQueue, clientQueue
    {
      && chunkQueue != clientQueue && chunkQueue.queue != clientQueue.queue
      && chunkQueue.Valid() && clientQueue.Valid() && clientTrigger.autoreset
      && queueSize == chunkQueue.Capacity() == clientQueue.Capacity()
    }

    ghost function View(): State
      requires Formed()
      reads this, chunkQueue, clientQueue, Repr()
    {
      State(queueSize, chunkQueue.Contents(), clientQueue.Contents(), clientTrigger.state, exitFlag,
            threads, socket, handed, served)
    }

    ghost predicate Valid()
      reads this, chunkQueue, clientQueue, Repr()
    {
      Formed() && Inv(View())
    }

    constructor (queueSize: int)
      ensures this.queueSize == queueSize && fresh(Repr())
    {
      this.queueSize := queueSize;
      chunkQueue := new QQueue<Buffer>();
      clientQueue := new QQueue<Buffer>();
      clientTrigger := new QTrigger(true, false);
      exitFlag, threads, socket := false, [], map[];
    }

    /** Allocates `queueSize` buffers into the free queue; the threads start at the top of their loops.
        `memory` is the number of allocations that succeed: two for each queue, one for the trigger,
        three for a buffer. */
    method Init(comms: nat, workers: nat, memory: nat) returns (code: int)
      modifies this
      ensures queueSize == old(queueSize)
      ensures code == if queueSize >= 0 && memory >= 3 * queueSize + 5 then 0 else -1
      ensures code == TCP_OK ==> fresh(Repr() - {this}) && Valid() && Initial(View())
      ensures code == TCP_OK ==> threads == Started(comms, workers)
    {
      hide Inv, Ring, Started, Numbers;
      AllAtTop(comms, workers);
      var ret := Open(memory);
      if ret < 0 { return TCP_ERR; }
      exitFlag, handed, served := false, [], [];
      threads := Started(comms, workers);
      assert Initial(View());
      InitialInv(View());
      code := TCP_OK;
    }

    method Open(memory: nat) returns (ret: int)
      modifies this`chunkQueue, this`clientQueue, this`clientTrigger, this`socket
      ensures ret < 0 <==> queueSize < 0 || memory < 3 * queueSize + 5
      ensures ret >= 0 ==> Formed() && !clientTrigger.state && fresh(Repr() - {this})
      ensures ret >= 0 ==> chunkQueue.Contents() == Numbers(queueSize) && clientQueue.Contents() == []
      ensures ret >= 0 ==> forall b: nat :: b in socket <==> b < queueSize
    {
      hide Ring, Numbers;
      ret := FillFree(memory);
      if ret < 0 { return; }
      var left := memory - (3 * queueSize + 2);
      if left < 1 { return -1; }
      clientQueue := new QQueue<Buffer>();
      ret := clientQueue.Init(queueSize + 1, left >= 2);
      if ret < 0 { return; }
      if left < 3 { return -1; }
      clientTrigger := new QTrigger(true, false);
    }

    /** The free queue starts out with every buffer, in order of allocation. */
    method FillFree(memory: nat) returns (ret: int)
      modifies this`chunkQueue, this`socket
      ensures ret < 0 <==> queueSize < 0 || memory < 3 * queueSize + 2
      ensures ret >= 0 ==> fresh(chunkQueue) && fresh(chunkQueue.queue) && chunkQueue.Valid()
      ensures ret >= 0 ==> chunkQueue.Capacity() == queueSize && chunkQueue.Contents() == Numbers(queueSize)
      ensures ret >= 0 ==> forall b: nat :: b in socket <==> b < queueSize
    {
      hide Ring;
      if memory < 1 { return -1; }
      chunkQueue := new QQueue<Buffer>();
      ret := chunkQueue.Init(queueSize + 1, memory >= 2);
      if ret < 0 { return; }
      socket := map[];
      var i := 0;
      while i < queueSize
        invariant 0 <= i <= queueSize && ret == 0 && 3 * i + 2 <= memory
        invariant fresh(chunkQueue) && fresh(chunkQueue.queue)
        invariant chunkQueue.Valid() && chunkQueue.Capacity() == queueSize
        invariant chunkQueue.Contents() == Numbers(i)
        invariant forall b: nat :: b in socket <==> b < i
      {
        if memory < 3 * i + 5 { return -1; }
        ret := chunkQueue.PushNonBlocking(i);
        assert Numbers(i + 1) == Numbers(i) + [i];
        socket := socket[i := 0];
        i := i + 1;
      }
    }

    method Stop()
      requires Valid()
      modifies this`exitFlag
      ensures Valid() && View() == old(View()).(exiting := true)
    {
      exitFlag := true;
      assert Next(old(View()), View());
      NextInv(old(View()), View());
    }

    method Goto(i: nat, pc: Pc)
      requires Formed() && i < |threads|
      modifies this`threads
      ensures Formed() && View() == Move(old(View()), i, pc)
    {
      threads := threads[i := pc];
    }

    method TakeFree(i: nat)
      requires Formed() && i < |threads|
      modifies this`threads, chunkQueue`front
      ensures Formed()
      ensures (var s := old(View());
        View() == if s.free == [] then s else Move(s.(free := s.free[1..]), i, Accepting(s.free[0])))
    {
      var code, b := chunkQueue.PopNonBlocking();
      if code == 0 { threads := threads[i := Accepting(b)]; }
    }

    method GiveFree(i: nat, b: Buffer, pc: Pc)
      requires Formed() && i < |threads| && |View().free| < queueSize
      modifies this`threads, chunkQueue`rear, chunkQueue.queue
      ensures Formed() && View() == Move(old(View()).(free := old(View()).free + [b]), i, pc)
    {
      var code := chunkQueue.PushNonBlocking(b);
      threads := threads[i := pc];
    }

    method PushPending(i: nat, b: Buffer)
      requires Formed() && i < |threads| && |View().pending| < queueSize && b in socket
      modifies this`threads, this`handed, clientQueue`rear, clientQueue.queue
      ensures Formed()
      ensures (var s := old(View());
        View() == Move(s.(pending := s.pending + [b], handed := s.handed + [s.socket[b]]), i, Signalling))
    {
      var code := clientQueue.PushNonBlocking(b);
      handed := handed + [socket[b]];
      threads := threads[i := Signalling];
    }

    method PopPending(i: nat)
      requires Formed() && i < |threads| && (View().pending != [] ==> View().pending[0] in socket)
      modifies this`threads, this`served, clientQueue`front
      ensures Formed()
      ensures (var s := old(View());
        View() == if s.pending == [] then Move(s, i, WorkTop)
          else Move(s.(pending := s.pending[1..], served := s.served + [s.socket[s.pending[0]]]),
                    i, Serving(s.pending[0])))
    {
      var code, b := clientQueue.PopNonBlocking();
      if code == 0 {
        served := served + [socket[b]];
        threads := threads[i := Serving(b)];
      } else {
        threads := threads[i := WorkTop];
      }
    }

    /** The next atomic action of communication thread `i`. The world supplies the outcome of accepting
        a connection or of setting its timeout, and the socket. */
    method CommThread(i: nat, e: Event)
      requires Valid() && i < |threads| && !Worker(threads[i])
      modifies this`threads, this`socket, this`handed
      modifies chunkQueue`front, chunkQueue`rear, chunkQueue.queue
      modifies clientQueue`rear, clientQueue.queue, clientTrigger`state
      ensures Valid() && CommStep(old(View()), View(), i, e)
      ensures old(threads[i]).Handing? || old(threads[i]).GivingBack? ==> threads != old(threads)
    {
      hide Inv, Ring;
      ghost var s := View();
      Room(s, i);
      match threads[i] {
        case CommTop => Goto(i, if exitFlag then CommDone else Taking);
        case Taking => TakeFree(i);
        case Accepting(b) =>
          socket := socket[b := e.socket];
          Goto(i, if e.ok then SettingTimeout(b) else GivingBack(b));
        case SettingTimeout(b) => Goto(i, if e.ok then Handing(b) else GivingBack(b));
        case Handing(b) => PushPending(i, b);
        case Signalling =>
          clientTrigger.Signal();
          Goto(i, CommTop);
        case GivingBack(b) => GiveFree(i, b, CommTop);
        case CommDone =>
      }
      NextInv(s, View()) by { assert Step(s, View(), i, e); }
    }

    /** The next atomic action of worker thread `i`. */
    method WorkThread(i: nat)
      requires Valid() && i < |threads| && Worker(threads[i])
      modifies this`threads, this`served
      modifies chunkQueue`rear, chunkQueue.queue, clientQueue`front, clientTrigger`state
      ensures Valid() && WorkStep(old(View()), View(), i)
      ensures old(threads[i]).Returning? ==> threads != old(threads)
    {
      hide Inv, Ring;
      ghost var s := View();
      Room(s, i);
      match threads[i] {
        case WorkTop => Goto(i, if exitFlag then WorkDone else Waiting);
        case Waiting =>
          var passed := clientTrigger.Wait();
          if passed { Goto(i, Draining); }
        case Draining => PopPending(i);
        case Serving(b) => Goto(i, Returning(b));
        case Returning(b) => GiveFree(i, b, Draining);
        case WorkDone =>
      }
      NextInv(s, View()) by { assert Step(s, View(), i, Event(true, 0)); }
    }
  }

  /** A thread about to push finds room, and the sockets it reads are there. */
  lemma Room(s: State, i: nat)
    requires Inv(s) && i < |s.threads|
    ensures |s.free| <= s.size && |s.pending| <= s.size
    ensures s.threads[i].Handing? ==> |s.pending| < s.size
    ensures s.threads[i].GivingBack? || s.threads[i].Returning? ==> |s.free| < s.size
    ensures Holds(s.threads[i]) ==> s.threads[i].buffer in s.socket
    ensures s.pending != [] ==> s.pending[0] in s.socket
  {
    if Holds(s.threads[i]) { HandsAtLeast(s.threads, i); HandsOnly(s, i); }
  }
}
