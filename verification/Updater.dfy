/**
 * The objects behind the worker pool. Each method is one lock-protected section, or one access to
 * an atomic flag, of the code, and takes the state exactly one step of RoomUpdater's relation.
 * Where the threads are, and the histories, are ghost.
 */
module Updaters {
  import opened RoomUpdater

  /** What WaitAndPop comes back with: it may have to sleep, and may leave the request null. */
  datatype Popped = Sleeps | Null | Value(request: Request)

  class ProducerConsumerQueue {
    var queue: seq<Request>
    var shutdown: bool

    constructor ()
      ensures queue == [] && !shutdown
    {
      queue, shutdown := [], false;
    }

    method Push(value: Request)
      modifies this`queue
      ensures queue == old(queue) + [value]
    {
      queue := queue + [value];
    }

    /** One turn of the wait under the queue's lock. */
    method WaitAndPop() returns (r: Popped)
      modifies this`queue
      ensures r.Sleeps? <==> old(queue) == [] && !shutdown
      ensures r.Null? <==> shutdown
      ensures r.Value? ==> old(queue) == [r.request] + queue
      ensures !r.Value? ==> queue == old(queue)
    {
      if queue == [] && !shutdown {
        return Sleeps;
      }
      if queue == [] || shutdown {
        return Null;
      }
      r := Value(queue[0]);
      queue := queue[1..];
    }

    /** Deletes what is queued and shuts down. */
    method Cancel() returns (deleted: seq<Request>)
      modifies this
      ensures deleted == old(queue) && queue == [] && shutdown
    {
      deleted := [];
      while queue != []
        invariant deleted + queue == old(queue) && shutdown == old(shutdown)
        decreases |queue|
      {
        deleted := deleted + [queue[0]];
        queue := queue[1..];
      }
      shutdown := true;
    }
  }

  class Updater {
    const queue: ProducerConsumerQueue
    var pendingRequests: int
    var cancelationToken: bool
    ghost var workers: seq<Worker>
    ghost var main: Main
    var scheduled: seq<Request>            // numbers the requests, as their addresses do
    ghost var ran: seq<Request>
    ghost var dropped: seq<Request>

    ghost function Abs(): State
      reads this, queue
    {
      State(workers, queue.queue, pendingRequests, cancelationToken, queue.shutdown, main, scheduled, ran, dropped)
    }

    constructor (numThreads: nat)
      ensures Abs() == Init(numThreads) && fresh(queue)
    {
      queue := new ProducerConsumerQueue();
      pendingRequests, cancelationToken := 0, false;
      workers, main := seq(numThreads, _ => Entering), Main.Ready;
      scheduled, ran, dropped := [], [], [];
    }

    // -------------------------------------------------------------- the main thread

    /** schedule_update: one section under the pool's lock, three steps of the relation. */
    method ScheduleUpdate(room: nat, ghost woken: nat)
      requires Enabled(Abs(), Schedule(room))
      requires AnyAsleep(workers) ==> woken < |workers| && workers[woken].Asleep?
      modifies this, queue
      ensures IsRun(old(Abs()), [Schedule(room), Push(woken), Unlock])
      ensures Abs() == After(old(Abs()), [Schedule(room), Push(woken), Unlock])
    {
      Scheduled(Abs(), room, woken);
      var request := Request(|scheduled|, room);
      pendingRequests := pendingRequests + 1;
      queue.Push(request);
      scheduled := scheduled + [request];
      workers := if AnyAsleep(workers) then workers[woken := Entering] else workers;
    }

    /** One turn of wait(), entered or woken up: it sleeps, or returns to its caller. */
    method TestWait() returns (returned: bool)
      requires Enabled(Abs(), TestPending)
      modifies this`main
      ensures Abs() == Apply(old(Abs()), TestPending)
      ensures returned <==> pendingRequests <= 0
    {
      returned := pendingRequests <= 0;
      main := if !returned then WaitAsleep(main.stopping) else if main.stopping then Cancelling else Main.Ready;
    }

    /** The start of deactivate(). */
    method SetCancelationToken()
      requires Enabled(Abs(), Deactivate)
      modifies this`cancelationToken, this`main
      ensures Abs() == Apply(old(Abs()), Deactivate)
    {
      cancelationToken := true;
      main := WaitEnter(true);
    }

    /** deactivate() after wait(): the locked part of Cancel. */
    method CancelQueue() returns (deleted: seq<Request>)
      requires Enabled(Abs(), Drain)
      modifies this`main, queue
      ensures Abs() == Apply(old(Abs()), Drain) && deleted == old(queue.queue)
    {
      deleted := queue.Cancel();
      main := Notifying;
    }

    // -------------------------------------------------------------- worker i

    /** WaitAndPop, one turn. */
    method TakeRequest(ghost i: nat) returns (r: Popped)
      requires Enabled(Abs(), Step(i)) && workers[i].Entering?
      modifies this`workers, queue
      ensures Abs() == Apply(old(Abs()), Step(i))
      ensures r.Value? <==> workers[i].Got?
      ensures r.Value? ==> r.request == workers[i].req
    {
      r := queue.WaitAndPop();
      workers := workers[i := if r.Sleeps? then Asleep else if r.Null? then GotNothing else Got(r.request)];
    }

    /** The worker looks at the token, and leaves or calls its request, which may be null. */
    method CheckToken(ghost i: nat, r: Popped) returns (leave: bool)
      requires Enabled(Abs(), Step(i)) && (workers[i].GotNothing? || workers[i].Got?)
      requires workers[i] == if r.Value? then Got(r.request) else GotNothing
      modifies this`workers, this`dropped
      ensures Abs() == Apply(old(Abs()), Step(i))
      ensures leave == cancelationToken
    {
      leave := cancelationToken;
      if leave {
        workers := workers[i := Exited];
        if r.Value? {
          dropped := dropped + [r.request];
        }
      } else {
        workers := workers[i := if r.Value? then Running(r.request) else Crashed];
      }
    }

    /** The room's update has returned. */
    ghost method RoomUpdated(i: nat)
      requires Enabled(Abs(), Step(i)) && workers[i].Running?
      modifies this`workers, this`ran
      ensures Abs() == Apply(old(Abs()), Step(i))
    {
      ran := ran + [workers[i].req];
      workers := workers[i := Finishing(workers[i].req)];
    }

    method UpdateFinished(ghost i: nat)
      requires Enabled(Abs(), Step(i)) && workers[i].Finishing?
      modifies this`workers, this`pendingRequests, this`main
      ensures Abs() == Apply(old(Abs()), Step(i))
    {
      pendingRequests := pendingRequests - 1;
      workers := workers[i := Entering];
      main := if main.WaitAsleep? then WaitEnter(main.stopping) else main;
    }
  }

  lemma Scheduled(s: State, room: nat, woken: nat)
    requires Enabled(s, Schedule(room))
    requires AnyAsleep(s.workers) ==> woken < |s.workers| && s.workers[woken].Asleep?
    ensures var r := Request(|s.scheduled|, room);
            && IsRun(s, [Schedule(room), Push(woken), Unlock])
            && After(s, [Schedule(room), Push(woken), Unlock]) ==
               s.(pending := s.pending + 1, scheduled := s.scheduled + [r], queue := s.queue + [r],
                  workers := if AnyAsleep(s.workers) then s.workers[woken := Entering] else s.workers)
  {
    var a, b, c := Schedule(room), Push(woken), Unlock;
    var t := Apply(s, a);
    var u := Apply(t, b);
    assert [a, b, c][1..] == [b, c] && [b, c][1..] == [c] && [c][1..] == [];
    assert Enabled(t, b) && Enabled(u, c);
    assert After(u, [c]) == Apply(u, c);
    assert IsRun(u, [c]) && IsRun(t, [b, c]);
    assert After(t, [b, c]) == After(u, [c]);
  }
}
