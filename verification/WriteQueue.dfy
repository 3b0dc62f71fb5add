/**
 * The write side of a socket. Senders check that the socket is open, then take the lock and
 * enqueue; completions take the lock, drop the front and issue the next write. A run is any
 * sequence of these steps, so every interleaving of senders and completions is a run.
 */
module WriteQueue {
  import opened Bytes
  import F = Framing

  type Packet = F.Packet

  datatype Event =
    | Admit(packet: Packet)      // a sender saw the socket open
    | Enqueue(packet: Packet)    // that sender took the lock
    | Completed             // the write handler, without an error
    | Broken                // the write handler, with an error
    | DelayedClose
    | Close

  /**
   * `outstanding` counts writes issued and not yet completed; `enqueued`, `issued` and `completed`
   * are histories; `crashed` records a front() or pop() of an empty queue.
   */
  datatype State = State(
    admitted: multiset<Packet>, queue: seq<Packet>, outstanding: nat, closed: bool, closing: bool, failed: bool,
    crashed: bool, enqueued: seq<Packet>, issued: seq<Packet>, completed: seq<Packet>)

  function Initial(): State {
    State(multiset{}, [], 0, false, false, false, false, [], [], [])
  }

  predicate Enabled(s: State, e: Event) {
    match e
    case Admit(_) => !s.closed
    case Enqueue(p) => p in s.admitted
    case Completed => s.outstanding > 0
    case Broken => s.outstanding > 0
    case DelayedClose => true
    case Close => true
  }

  /** Starts the asynchronous write of the front of the queue. */
  function Issue(s: State): State
    requires s.queue != []
  {
    s.(outstanding := s.outstanding + 1, issued := s.issued + [s.queue[0]])
  }

  function Apply(s: State, e: Event): State
    requires Enabled(s, e)
  {
    match e
    case Admit(p) => s.(admitted := s.admitted + multiset{p})
    case Enqueue(p) =>
      var t := s.(admitted := s.admitted - multiset{p}, queue := s.queue + [p], enqueued := s.enqueued + [p]);
      if s.queue == [] then Issue(t) else t
    case Completed =>
      if s.queue == [] then s.(crashed := true)
      else
        var t := s.(outstanding := s.outstanding - 1, queue := s.queue[1..], completed := s.completed + [s.queue[0]]);
        if t.queue != [] then Issue(t) else if t.closing then t.(closed := true) else t
    case Broken => s.(outstanding := s.outstanding - 1, failed := true, closed := true)
    case DelayedClose => s.(closing := true)
    case Close => s.(closed := true)
  }

  ghost predicate IsRun(s: State, run: seq<Event>)
    decreases |run|
  {
    run == [] || (Enabled(s, run[0]) && IsRun(Apply(s, run[0]), run[1..]))
  }

  ghost function After(s: State, run: seq<Event>): State
    requires IsRun(s, run)
    decreases |run|
  {
    if run == [] then s else After(Apply(s, run[0]), run[1..])
  }

  // ---------------------------------------------------------------- safety of every run

  ghost predicate Inv(s: State) {
    && !s.crashed
    && s.outstanding == (if s.queue != [] && !s.failed then 1 else 0)
    && (s.failed ==> s.queue != [] && s.closed)
    && s.enqueued == s.completed + s.queue
    && s.issued == s.completed + (if s.queue != [] then [s.queue[0]] else [])
  }

  lemma InvApply(s: State, e: Event)
    requires Inv(s) && Enabled(s, e)
    ensures Inv(Apply(s, e))
    ensures s.failed ==> Apply(s, e).failed && Apply(s, e).issued == s.issued
  {
    match e
    case Enqueue(p) => InvEnqueue(s, p);
    case Completed => InvCompleted(s);
    case _ =>
  }

  lemma InvEnqueue(s: State, p: Packet)
    requires Inv(s) && Enabled(s, Enqueue(p))
    ensures Inv(Apply(s, Enqueue(p)))
    ensures s.failed ==> Apply(s, Enqueue(p)).issued == s.issued
  {
    assert (s.completed + s.queue) + [p] == s.completed + (s.queue + [p]);
    if s.queue == [] {
      assert s.issued == s.completed;
    }
  }

  lemma InvCompleted(s: State)
    requires Inv(s) && Enabled(s, Completed)
    ensures Inv(Apply(s, Completed))
  {
    var front, rest := s.queue[0], s.queue[1..];
    assert s.queue == [front] + rest;
    assert s.completed + s.queue == (s.completed + [front]) + rest;
  }

  lemma {:induction false} InvAfter(s: State, run: seq<Event>)
    requires Inv(s) && IsRun(s, run)
    ensures Inv(After(s, run))
    decreases |run|
  {
    if run != [] {
      InvApply(s, run[0]);
      InvAfter(Apply(s, run[0]), run[1..]);
    }
  }

  /**
   * In every run: at most one write is outstanding; until an error one is outstanding exactly
   * while the queue is non-empty; writes are issued in the order of enqueueing; the completed ones
   * are those before the front; the handler never touches an empty queue.
   */
  lemma OneWriteInOrder(run: seq<Event>)
    requires IsRun(Initial(), run)
    ensures var s := After(Initial(), run);
            && s.outstanding <= 1
            && (!s.failed ==> (s.outstanding == 1 <==> s.queue != []))
            && s.completed <= s.issued <= s.enqueued
            && s.enqueued == s.completed + s.queue
            && !s.crashed
  {
    InvAfter(Initial(), run);
    var s := After(Initial(), run);
    if s.queue != [] {
      assert s.queue == [s.queue[0]] + s.queue[1..];
      assert s.enqueued == s.issued + s.queue[1..];
    }
  }

  /** After an error nothing is ever issued again, whatever senders do. */
  lemma {:induction false} NothingAfterFailure(s: State, run: seq<Event>)
    requires Inv(s) && s.failed && IsRun(s, run)
    ensures After(s, run).failed && After(s, run).issued == s.issued && After(s, run).outstanding == 0
    decreases |run|
  {
    if run != [] {
      InvApply(s, run[0]);
      NothingAfterFailure(Apply(s, run[0]), run[1..]);
    }
  }

  // ---------------------------------------------------------------- draining and delayed close

  ghost function Drain(s: State): seq<Event> {
    seq(|s.queue|, _ => Completed)
  }

  /**
   * Without errors and new packets the queue drains and everything enqueued is written; the last
   * completion closes a socket marked for closing.
   */
  lemma {:induction false} Drains(s: State)
    requires Inv(s) && !s.failed
    ensures IsRun(s, Drain(s))
    ensures var t := After(s, Drain(s));
            && t.queue == [] && t.completed == t.enqueued == s.enqueued
            && t.closed == (s.closed || (s.closing && s.queue != []))
    decreases |s.queue|
  {
    if s.queue != [] {
      var t := Apply(s, Completed);
      InvApply(s, Completed);
      assert Drain(s)[1..] == Drain(t);
      Drains(t);
    }
  }

  /** Nothing in the run closes the socket but a completion. */
  ghost predicate OnlyCompletionsClose(run: seq<Event>) {
    forall i :: 0 <= i < |run| ==> !run[i].Broken? && !run[i].Close?
  }

  /** Since the mark was set at `s`: an empty queue is closed if anything was or has been queued. */
  ghost predicate Marked(s: State, t: State) {
    && Inv(t) && t.closing && !t.failed
    && |t.enqueued| >= |s.enqueued| && |t.completed| >= |s.completed|
    && (t.queue == [] ==> (t.closed <==> s.queue != [] || |t.enqueued| > |s.enqueued|))
  }

  lemma MarkedStep(s: State, t: State, e: Event)
    requires Inv(s) && Marked(s, t) && Enabled(t, e) && !e.Broken? && !e.Close?
    ensures Marked(s, Apply(t, e))
  {
    InvApply(t, e);
    hide Inv;
    Lengths(s);
    Lengths(t);
  }

  lemma Lengths(s: State)
    requires Inv(s)
    ensures |s.enqueued| == |s.completed| + |s.queue|
  {
  }

  lemma {:induction false} MarkedAfter(s: State, t: State, run: seq<Event>)
    requires Inv(s) && Marked(s, t) && IsRun(t, run) && OnlyCompletionsClose(run)
    ensures Marked(s, After(t, run))
    decreases |run|
  {
    hide Marked, Inv, Apply, Enabled;
    if run != [] {
      MarkedStep(s, t, run[0]);
      assert forall i :: 0 <= i < |run[1..]| ==> run[1..][i] == run[i + 1];
      MarkedAfter(s, Apply(t, run[0]), run[1..]);
    }
  }

  /**
   * When a delayed close takes effect, in every run in which nothing else closes the socket: once
   * the queue is empty, the socket is closed if and only if something was queued at the call or
   * has been enqueued since. With neither, nothing ever closes it.
   */
  lemma DelayedCloseIff(s: State, run: seq<Event>)
    requires Inv(s) && !s.failed && !s.closed && !s.closing
    requires IsRun(Apply(s, DelayedClose), run) && OnlyCompletionsClose(run)
    ensures var t := After(Apply(s, DelayedClose), run);
            t.queue == [] ==> (t.closed <==> s.queue != [] || |t.enqueued| > |s.enqueued|)
  {
    InvApply(s, DelayedClose);
    MarkedAfter(s, Apply(s, DelayedClose), run);
  }

  // ---------------------------------------------------------------- end to end

  /**
   * Writer and reader together. In a run that has written everything it enqueued, the bytes issued
   * are reassembled by the peer, in whatever chunks, into the packets enqueued, in order.
   */
  lemma EndToEnd(run: seq<Event>, chunks: seq<seq<Byte>>)
    requires IsRun(Initial(), run)
    requires var s := After(Initial(), run);
             && s.queue == [] && s.enqueued != [] && F.OpensSession(s.enqueued[0])
             && (forall i :: 0 <= i < |s.enqueued| ==> F.Readable(s.enqueued[i]))
             && F.Concat(chunks) == F.Frames(s.issued)
    ensures F.FeedChunks(F.START, chunks).status == F.Open
    ensures F.FeedChunks(F.START, chunks).received == After(Initial(), run).enqueued
  {
    OneWriteInOrder(run);
    var s := After(Initial(), run);
    assert s.issued == s.enqueued;
    F.FramingRoundTrip(s.enqueued, chunks);
  }

  // ---------------------------------------------------------------- the object

  /** The write half of a socket. Each method is one step under the lock. */
  class Writer {
    var writeQueue: seq<Packet>
    var closed: bool
    var closing: bool
    ghost var admitted: multiset<Packet>
    ghost var outstanding: nat
    ghost var failed: bool
    ghost var enqueued: seq<Packet>
    ghost var issued: seq<Packet>
    ghost var completed: seq<Packet>

    ghost function Abs(): State
      reads this
    {
      State(admitted, writeQueue, outstanding, closed, closing, failed, false, enqueued, issued, completed)
    }

    ghost predicate Valid()
      reads this
    {
      Inv(Abs())
    }

    constructor ()
      ensures Valid() && Abs() == Initial()
    {
      writeQueue := [];
      closed, closing, failed := false, false, false;
      admitted, outstanding := multiset{}, 0;
      enqueued, issued, completed := [], [], [];
    }

    /** The sender's check, made before it takes the lock. */
    method IsOpen(packet: Packet) returns (open: bool)
      requires Valid()
      modifies this`admitted
      ensures Valid() && open == !closed
      ensures if open then Abs() == Apply(old(Abs()), Admit(packet)) else Abs() == old(Abs())
    {
      open := !closed;
      if open {
        admitted := admitted + multiset{packet};
      }
    }

    method AsyncWrite(packet: Packet)
      requires Valid() && packet in admitted
      modifies this
      ensures Valid() && Abs() == Apply(old(Abs()), Enqueue(packet))
    {
      InvApply(Abs(), Enqueue(packet));
      var needsWriteStart := writeQueue == [];
      writeQueue := writeQueue + [packet];
      admitted, enqueued := admitted - multiset{packet}, enqueued + [packet];
      if needsWriteStart {
        StartWrite();
      }
    }

    /** Hands the front of the queue to the asynchronous write. */
    method StartWrite()
      requires writeQueue != []
      modifies this`outstanding, this`issued
      ensures Abs() == Issue(old(Abs()))
    {
      outstanding, issued := outstanding + 1, issued + [writeQueue[0]];
    }

    method WriteHandler(error: bool)
      requires Valid() && outstanding > 0
      modifies this
      ensures Valid() && Abs() == Apply(old(Abs()), if error then Broken else Completed)
    {
      InvApply(Abs(), if error then Broken else Completed);
      outstanding := outstanding - 1;
      if !error {
        completed := completed + [writeQueue[0]];
        writeQueue := writeQueue[1..];
        if writeQueue != [] {
          StartWrite();
        } else if closing {
          CloseSocket();
        }
      } else {
        failed := true;
        CloseSocket();
      }
    }

    method CloseSocket()
      modifies this`closed
      ensures Abs() == old(Abs()).(closed := true)
    {
      closed := true;
    }

    method DelayedCloseSocket()
      requires Valid()
      modifies this`closing
      ensures Valid() && Abs() == Apply(old(Abs()), DelayedClose)
    {
      closing := true;
    }
  }
}
