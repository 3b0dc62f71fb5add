/**
 * The worker pool of RoomUpdater.cpp over ProducerConsumerQueue.h, as a state machine whose
 * atomic steps are the lock-protected sections, the reads and writes of the atomic flags, and
 * the unlocked run of Room::Update. One main thread schedules, waits and shuts down; any number
 * of workers run WorkerThread. A run is a sequence of actions, so it covers every interleaving.
 */
module RoomUpdater {

  /** The id numbers the calls of schedule_update. */
  datatype Request = Request(id: nat, room: nat)

  datatype Worker =
    | Entering                // about to lock the queue in WaitAndPop, first time or after a wakeup
    | Asleep                  // in the queue's condition wait
    | GotNothing              // WaitAndPop returned without a request; the token is read next
    | Got(req: Request)       // WaitAndPop returned a request; the token is read next
    | Running(req: Request)   // inside Room::Update
    | Finishing(req: Request) // Room::Update returned; update_finished locks next
    | Exited
    | Crashed                 // called a null request

  datatype Main =
    | Ready                   // between calls
    | Pushing(req: Request)   // schedule_update holds _lock, has counted the request, pushes next
    | Pushed                  // schedule_update still holds _lock
    | WaitEnter(stopping: bool)  // wait() locks and tests next
    | WaitAsleep(stopping: bool) // in wait()'s condition wait
    | Cancelling              // deactivate: wait() returned, Cancel locks next
    | Notifying               // Cancel: shutdown set and unlocked, notify_all next
    | Joining(k: nat)         // deactivate: joining worker k
    | Done

  datatype State = State(
    workers: seq<Worker>, queue: seq<Request>, pending: int, token: bool, shutdown: bool, main: Main,
    // history: requests counted, run, and taken by a worker that then saw the token; in order
    scheduled: seq<Request>, ran: seq<Request>, dropped: seq<Request>)

  datatype Action =
    | Schedule(room: nat)     // enter schedule_update
    | Push(woken: nat)        // Push, waking worker `woken` if anybody sleeps
    | Unlock
    | CallWait
    | TestPending             // wait(): lock, test, and sleep or return
    | Deactivate
    | Drain
    | NotifyAll
    | Join
    | Step(i: nat)            // worker i takes its next step
    | SpuriousWake(i: nat)
    | SpuriousMainWake

  function Init(n: nat): State {
    State(seq(n, _ => Entering), [], 0, false, false, Ready, [], [], [])
  }

  predicate LockFree(s: State) {
    !s.main.Pushing? && !s.main.Pushed?
  }

  predicate AnyAsleep(ws: seq<Worker>) {
    exists i | 0 <= i < |ws| :: ws[i].Asleep?
  }

  predicate Enabled(s: State, a: Action) {
    match a
    case Schedule(_) => s.main.Ready?
    case Push(i) => s.main.Pushing? && if AnyAsleep(s.workers) then i < |s.workers| && s.workers[i].Asleep? else true
    case Unlock => s.main.Pushed?
    case CallWait => s.main.Ready?
    case TestPending => s.main.WaitEnter?
    case Deactivate => s.main.Ready?
    case Drain => s.main.Cancelling?
    case NotifyAll => s.main.Notifying?
    case Join => s.main.Joining? && s.main.k < |s.workers| && s.workers[s.main.k].Exited?
    case Step(i) =>
      && i < |s.workers|
      && !s.workers[i].Asleep? && !s.workers[i].Exited? && !s.workers[i].Crashed?
      && (s.workers[i].Finishing? ==> LockFree(s))
    case SpuriousWake(i) => i < |s.workers| && s.workers[i].Asleep?
    case SpuriousMainWake => s.main.WaitAsleep?
  }

  function WakeAll(ws: seq<Worker>): (r: seq<Worker>)
    ensures |r| == |ws|
  {
    seq(|ws|, i requires 0 <= i < |ws| => if ws[i].Asleep? then Entering else ws[i])
  }

  function NextJoin(s: State, k: nat): Main {
    if k < |s.workers| then Joining(k) else Done
  }

  function StepWorker(s: State, i: nat): State
    requires Enabled(s, Step(i))
  {
    match s.workers[i]
    case Entering =>
      if s.queue == [] && !s.shutdown then s.(workers := s.workers[i := Asleep])
      else if s.queue == [] || s.shutdown then s.(workers := s.workers[i := GotNothing])
      else s.(workers := s.workers[i := Got(s.queue[0])], queue := s.queue[1..])
    case GotNothing =>
      s.(workers := s.workers[i := if s.token then Exited else Crashed])
    case Got(r) =>
      if s.token then s.(workers := s.workers[i := Exited], dropped := s.dropped + [r])
      else s.(workers := s.workers[i := Running(r)])
    case Running(r) =>
      s.(workers := s.workers[i := Finishing(r)], ran := s.ran + [r])
    case Finishing(_) =>
      s.(workers := s.workers[i := Entering], pending := s.pending - 1,
         main := if s.main.WaitAsleep? then WaitEnter(s.main.stopping) else s.main)
  }

  function Apply(s: State, a: Action): State
    requires Enabled(s, a)
  {
    match a
    case Schedule(room) =>
      var r := Request(|s.scheduled|, room);
      s.(pending := s.pending + 1, main := Pushing(r), scheduled := s.scheduled + [r])
    case Push(i) =>
      s.(queue := s.queue + [s.main.req], main := Pushed,
         workers := if AnyAsleep(s.workers) then s.workers[i := Entering] else s.workers)
    case Unlock => s.(main := Ready)
    case CallWait => s.(main := WaitEnter(false))
    case TestPending =>
      s.(main := if s.pending > 0 then WaitAsleep(s.main.stopping)
                 else if s.main.stopping then Cancelling else Ready)
    case Deactivate => s.(token := true, main := WaitEnter(true))
    case Drain => s.(queue := [], shutdown := true, main := Notifying)
    case NotifyAll => s.(workers := WakeAll(s.workers), main := NextJoin(s, 0))
    case Join => s.(main := NextJoin(s, s.main.k + 1))
    case Step(i) => StepWorker(s, i)
    case SpuriousWake(i) => s.(workers := s.workers[i := Entering])
    case SpuriousMainWake => s.(main := WaitEnter(s.main.stopping))
  }

  ghost predicate IsRun(s: State, run: seq<Action>)
    decreases |run|
  {
    run == [] || (Enabled(s, run[0]) && IsRun(Apply(s, run[0]), run[1..]))
  }

  ghost function After(s: State, run: seq<Action>): State
    requires IsRun(s, run)
    decreases |run|
  {
    if run == [] then s else After(Apply(s, run[0]), run[1..])
  }

  ghost predicate Reachable(s: State) {
    exists n: nat, run: seq<Action> :: IsRun(Init(n), run) && After(Init(n), run) == s
  }

  // ---------------------------------------------------------------- counting over the workers

  ghost function Sum(ws: seq<Worker>, f: Worker -> nat): nat {
    if ws == [] then 0 else f(ws[0]) + Sum(ws[1..], f)
  }

  lemma {:induction false} SumUpdate(ws: seq<Worker>, i: nat, w: Worker, f: Worker -> nat)
    requires i < |ws|
    ensures Sum(ws[i := w], f) + f(ws[i]) == Sum(ws, f) + f(w)
  {
    if i > 0 {
      SumUpdate(ws[1..], i - 1, w, f);
      assert ws[i := w][1..] == ws[1..][i - 1 := w];
    } else {
      assert ws[0 := w][1..] == ws[1..];
    }
  }

  lemma {:induction false} SumAtLeast(ws: seq<Worker>, i: nat, f: Worker -> nat)
    requires i < |ws|
    ensures Sum(ws, f) >= f(ws[i])
  {
    if i > 0 {
      SumAtLeast(ws[1..], i - 1, f);
    }
  }

  lemma {:induction false} SumPositive(ws: seq<Worker>, f: Worker -> nat) returns (i: nat)
    requires Sum(ws, f) > 0
    ensures i < |ws| && f(ws[i]) > 0
  {
    if f(ws[0]) > 0 {
      i := 0;
    } else {
      i := SumPositive(ws[1..], f);
      i := i + 1;
    }
  }

  lemma {:induction false} SumBounded(ws: seq<Worker>, f: Worker -> nat, bound: nat)
    requires forall i | 0 <= i < |ws| :: f(ws[i]) <= bound
    ensures Sum(ws, f) <= bound * |ws|
  {
    if ws != [] {
      SumBounded(ws[1..], f, bound);
    }
  }

  /** The worker still owes a call of update_finished. */
  ghost function Owing(w: Worker): nat {
    if w.Got? || w.Running? || w.Finishing? then 1 else 0
  }

  ghost function AtQueue(w: Worker): nat {
    if w.Entering? then 1 else 0
  }

  /** 1 for a worker that popped r and has not run it. */
  ghost function Holding(r: Request): Worker -> nat {
    (w: Worker) => if (w.Got? || w.Running?) && w.req == r then 1 else 0
  }

  /** How often r occurs in s. */
  ghost function Times(s: seq<Request>, r: Request): nat {
    if s == [] then 0 else (if s[0] == r then 1 else 0) + Times(s[1..], r)
  }

  lemma {:induction false} TimesAppend(s: seq<Request>, x: Request, r: Request)
    ensures Times(s + [x], r) == Times(s, r) + if x == r then 1 else 0
  {
    if s == [] {
      assert s + [x] == [x];
    } else {
      assert (s + [x])[1..] == s[1..] + [x];
      TimesAppend(s[1..], x, r);
    }
  }

  lemma {:induction false} TimesOfElement(s: seq<Request>, k: nat)
    requires k < |s|
    ensures Times(s, s[k]) >= 1
  {
    if k > 0 {
      TimesOfElement(s[1..], k - 1);
    }
  }

  lemma {:induction false} TimesZero(s: seq<Request>, r: Request)
    requires r !in s
    ensures Times(s, r) == 0
  {
    if s != [] {
      TimesZero(s[1..], r);
    }
  }

  lemma {:induction false} TimesOne(s: seq<Request>, k: nat)
    requires k < |s| && forall i, j | 0 <= i < j < |s| :: s[i] != s[j]
    ensures Times(s, s[k]) == 1
  {
    if k == 0 {
      TimesZero(s[1..], s[0]);
    } else {
      TimesOne(s[1..], k - 1);
    }
  }

  // ---------------------------------------------------------------- the invariant

  /** pending_requests is exact: queued, popped and unfinished, dropped, or about to be pushed. */
  ghost predicate PendingExact(s: State) {
    s.pending == |s.queue| + Sum(s.workers, Owing) + |s.dropped| + if s.main.Pushing? then 1 else 0
  }

  /** How often r is about to be pushed, queued, held by a worker, run, or dropped. */
  ghost function Places(s: State, r: Request): nat {
    (if s.main == Pushing(r) then 1 else 0)
    + Times(s.queue, r) + Sum(s.workers, Holding(r)) + Times(s.ran, r) + Times(s.dropped, r)
  }

  /** No request is lost or duplicated. */
  ghost predicate Conserved(s: State) {
    forall r :: Times(s.scheduled, r) == Places(s, r)
  }

  ghost predicate Numbered(s: State) {
    forall k | 0 <= k < |s.scheduled| :: s.scheduled[k].id == k
  }

  ghost predicate Stopping(m: Main) {
    ((m.WaitEnter? || m.WaitAsleep?) && m.stopping) || m.Cancelling? || m.Notifying? || m.Joining? || m.Done?
  }

  ghost predicate Stopped(m: Main) {
    m.Notifying? || m.Joining? || m.Done?
  }

  ghost predicate FlagsInOrder(s: State) {
    && (s.token <==> Stopping(s.main))
    && (s.shutdown <==> Stopped(s.main))
    && (s.dropped != [] ==> s.token)
    && (s.main.Cancelling? || s.shutdown ==> s.pending == 0)
  }

  ghost predicate WorkerOk(s: State, i: nat)
    requires i < |s.workers|
  {
    var w := s.workers[i];
    && !w.Crashed?
    && (w.GotNothing? ==> s.shutdown)
    && (w.Exited? ==> s.token && (s.shutdown || s.dropped != []))
    && (s.main.Joining? || s.main.Done? ==> !w.Asleep?)
    && (s.main.Done? || (s.main.Joining? && i < s.main.k) ==> w.Exited?)
  }

  /** While somebody sleeps, at least one worker is on its way to the queue for every queued request. */
  ghost predicate NoLostWakeup(s: State) {
    && (AnyAsleep(s.workers) ==> |s.queue| <= Sum(s.workers, AtQueue))
    && (s.main.WaitAsleep? ==> s.pending > 0)
  }

  ghost predicate Inv(s: State) {
    && PendingExact(s) && Conserved(s) && Numbered(s) && FlagsInOrder(s) && NoLostWakeup(s)
    && (s.main.Joining? ==> s.main.k < |s.workers|)
    && forall i: nat | i < |s.workers| :: WorkerOk(s, i)
  }

  lemma {:induction false} SumIsZero(ws: seq<Worker>, f: Worker -> nat)
    requires forall i | 0 <= i < |ws| :: f(ws[i]) == 0
    ensures Sum(ws, f) == 0
  {
    if ws != [] {
      SumIsZero(ws[1..], f);
    }
  }

  lemma InvInit(n: nat)
    ensures Inv(Init(n))
  {
    SumIsZero(Init(n).workers, Owing);
    forall r
      ensures Places(Init(n), r) == 0
    {
      SumIsZero(Init(n).workers, Holding(r));
    }
  }

  lemma {:induction false} WakeAllFacts(ws: seq<Worker>, f: Worker -> nat)
    requires f(Asleep) == f(Entering)
    ensures Sum(WakeAll(ws), f) == Sum(ws, f)
  {
    if ws != [] {
      assert WakeAll(ws)[1..] == WakeAll(ws[1..]);
      WakeAllFacts(ws[1..], f);
    }
  }

  lemma {:induction false} WokenAtQueue(ws: seq<Worker>, i: nat)
    requires i < |ws| && ws[i].Asleep?
    ensures Sum(ws[i := Entering], AtQueue) == Sum(ws, AtQueue) + 1
  {
    SumUpdate(ws, i, Entering, AtQueue);
  }

  lemma StillAsleep(ws: seq<Worker>, i: nat, w: Worker)
    requires i < |ws| && !w.Asleep?
    ensures AnyAsleep(ws[i := w]) ==> AnyAsleep(ws)
  {
    if AnyAsleep(ws[i := w]) {
      var k :| 0 <= k < |ws| && ws[i := w][k].Asleep?;
      assert ws[k].Asleep?;
    }
  }

  lemma NothingToDrain(s: State)
    requires PendingExact(s) && s.pending == 0
    ensures s.queue == [] && s.dropped == [] && Sum(s.workers, Owing) == 0 && !s.main.Pushing?
  {
  }

  lemma PendingStep(s: State, i: nat)
    requires PendingExact(s) && Enabled(s, Step(i)) && (s.workers[i].GotNothing? ==> s.token)
    ensures PendingExact(StepWorker(s, i)) && 0 <= StepWorker(s, i).pending
  {
    var w := StepWorker(s, i).workers[i];
    SumUpdate(s.workers, i, w, Owing);
    SumAtLeast(s.workers, i, Owing);
    hide Sum;
    match s.workers[i] {
      case Entering =>
      case GotNothing =>
      case Got(_) =>
      case Running(_) =>
      case Finishing(_) =>
    }
  }

  lemma PendingKept(s: State, a: Action)
    requires Inv(s) && Enabled(s, a)
    ensures PendingExact(Apply(s, a)) && 0 <= Apply(s, a).pending
  {
    hide Conserved, NoLostWakeup, Numbered;
    match a {
      case Step(i) =>
        assert WorkerOk(s, i);
        PendingStep(s, i);
      case Push(i) =>
        if AnyAsleep(s.workers) {
          SumUpdate(s.workers, i, Entering, Owing);
        }
      case SpuriousWake(i) =>
        SumUpdate(s.workers, i, Entering, Owing);
      case NotifyAll =>
        WakeAllFacts(s.workers, Owing);
      case Drain =>
        NothingToDrain(s);
      case _ =>
    }
  }

  lemma PlacesPop(s: State, i: nat, r: Request)
    requires Enabled(s, Step(i)) && s.workers[i].Entering?
    ensures Places(StepWorker(s, i), r) == Places(s, r)
  {
    SumUpdate(s.workers, i, StepWorker(s, i).workers[i], Holding(r));
  }

  lemma PlacesGot(s: State, i: nat, r: Request)
    requires Enabled(s, Step(i)) && s.workers[i].Got?
    ensures Places(StepWorker(s, i), r) == Places(s, r)
  {
    SumUpdate(s.workers, i, StepWorker(s, i).workers[i], Holding(r));
    TimesAppend(s.dropped, s.workers[i].req, r);
    hide Sum, Times;
  }

  lemma PlacesRunning(s: State, i: nat, r: Request)
    requires Enabled(s, Step(i)) && s.workers[i].Running?
    ensures Places(StepWorker(s, i), r) == Places(s, r)
  {
    SumUpdate(s.workers, i, StepWorker(s, i).workers[i], Holding(r));
    TimesAppend(s.ran, s.workers[i].req, r);
    hide Sum, Times;
  }

  lemma PlacesIdle(s: State, i: nat, r: Request)
    requires Enabled(s, Step(i)) && (s.workers[i].GotNothing? || s.workers[i].Finishing?)
    ensures Places(StepWorker(s, i), r) == Places(s, r)
  {
    SumUpdate(s.workers, i, StepWorker(s, i).workers[i], Holding(r));
    hide Sum, Times;
  }

  lemma PlacesStep(s: State, i: nat, r: Request)
    requires Enabled(s, Step(i))
    ensures Places(StepWorker(s, i), r) == Places(s, r)
  {
    hide Places, StepWorker;
    match s.workers[i] {
      case Entering => PlacesPop(s, i, r);
      case Got(_) => PlacesGot(s, i, r);
      case Running(_) => PlacesRunning(s, i, r);
      case _ => PlacesIdle(s, i, r);
    }
  }

  lemma PlacesPush(s: State, i: nat, r: Request)
    requires Enabled(s, Push(i))
    ensures Places(Apply(s, Push(i)), r) == Places(s, r)
  {
    TimesAppend(s.queue, s.main.req, r);
    if AnyAsleep(s.workers) {
      SumUpdate(s.workers, i, Entering, Holding(r));
    }
  }

  lemma PlacesSchedule(s: State, room: nat, r: Request)
    requires Times(s.scheduled, r) == Places(s, r) && Enabled(s, Schedule(room))
    ensures var t := Apply(s, Schedule(room)); Times(t.scheduled, r) == Places(t, r)
  {
    TimesAppend(s.scheduled, Request(|s.scheduled|, room), r);
    hide Sum, Times;
  }

  lemma PlacesWake(s: State, i: nat, r: Request)
    requires Enabled(s, SpuriousWake(i))
    ensures Places(Apply(s, SpuriousWake(i)), r) == Places(s, r)
  {
    SumUpdate(s.workers, i, Entering, Holding(r));
    hide Sum, Times;
  }

  lemma PlacesNotify(s: State, r: Request)
    requires Enabled(s, NotifyAll)
    ensures Places(Apply(s, NotifyAll), r) == Places(s, r)
  {
    WakeAllFacts(s.workers, Holding(r));
    hide Sum, Times, WakeAll;
  }

  lemma PlacesDrain(s: State, r: Request)
    requires PendingExact(s) && FlagsInOrder(s) && Enabled(s, Drain)
    ensures Places(Apply(s, Drain), r) == Places(s, r)
  {
    NothingToDrain(s);
    hide Sum, Times;
  }

  lemma PlacesElsewhere(s: State, a: Action, r: Request)
    requires Enabled(s, a)
    requires !a.Schedule? && !a.Step? && !a.Push? && !a.SpuriousWake? && !a.NotifyAll? && !a.Drain?
    ensures Places(Apply(s, a), r) == Places(s, r)
  {
    hide Sum, Times;
  }

  lemma ScheduledElsewhere(s: State, a: Action)
    requires Enabled(s, a) && !a.Schedule?
    ensures Apply(s, a).scheduled == s.scheduled
  {
  }

  lemma PlacesKept(s: State, a: Action, r: Request)
    requires PendingExact(s) && FlagsInOrder(s) && Times(s.scheduled, r) == Places(s, r) && Enabled(s, a)
    ensures Times(Apply(s, a).scheduled, r) == Places(Apply(s, a), r)
  {
    if a.Schedule? {
      PlacesSchedule(s, a.room, r);
    } else {
      ScheduledElsewhere(s, a);
      PlacesSame(s, a, r);
    }
  }

  lemma PlacesSame(s: State, a: Action, r: Request)
    requires PendingExact(s) && FlagsInOrder(s) && Enabled(s, a) && !a.Schedule?
    ensures Places(Apply(s, a), r) == Places(s, r)
  {
    hide PendingExact, FlagsInOrder, Places, StepWorker;
    match a {
      case Step(i) => PlacesStep(s, i, r);
      case Push(i) => PlacesPush(s, i, r);
      case SpuriousWake(i) => PlacesWake(s, i, r);
      case NotifyAll => PlacesNotify(s, r);
      case Drain => PlacesDrain(s, r);
      case _ => PlacesElsewhere(s, a, r);
    }
  }

  lemma WakeupsStep(s: State, i: nat)
    requires NoLostWakeup(s) && Enabled(s, Step(i)) && (s.shutdown ==> s.queue == [])
    ensures NoLostWakeup(StepWorker(s, i))
  {
    var w := StepWorker(s, i).workers[i];
    SumUpdate(s.workers, i, w, AtQueue);
    if !w.Asleep? {
      StillAsleep(s.workers, i, w);
    }
    hide Sum, AnyAsleep;
    match s.workers[i] {
      case Entering =>
      case GotNothing =>
      case Got(q) =>
      case Running(q) =>
      case Finishing(_) =>
    }
  }

  lemma WakeupsKept(s: State, a: Action)
    requires Inv(s) && Enabled(s, a)
    ensures NoLostWakeup(Apply(s, a))
  {
    hide Conserved, WorkerOk, Numbered, Sum;
    match a {
      case Step(i) =>
        if s.shutdown {
          NothingToDrain(s);
        }
        WakeupsStep(s, i);
      case Push(i) =>
        if AnyAsleep(s.workers) {
          WokenAtQueue(s.workers, i);
        }
      case SpuriousWake(i) =>
        WokenAtQueue(s.workers, i);
      case _ =>
    }
  }

  lemma WorkersStay(s: State, a: Action)
    requires Enabled(s, a)
    ensures |Apply(s, a).workers| == |s.workers|
  {
  }

  lemma WorkerKept(s: State, a: Action, j: nat)
    requires Inv(s) && Enabled(s, a) && j < |Apply(s, a).workers|
    ensures WorkerOk(Apply(s, a), j)
  {
    hide Conserved, PendingExact, NoLostWakeup, StepWorker;
    WorkersStay(s, a);
    assert WorkerOk(s, j);
    if a.Step? {
      assert WorkerOk(s, a.i);
      WorkerStepKept(s, a.i, j);
    }
  }

  lemma WorkerStepKept(s: State, i: nat, j: nat)
    requires FlagsInOrder(s) && Enabled(s, Step(i)) && j < |s.workers| && WorkerOk(s, i) && WorkerOk(s, j)
    ensures j < |StepWorker(s, i).workers| && WorkerOk(StepWorker(s, i), j)
  {
  }

  lemma InvApply(s: State, a: Action)
    requires Inv(s) && Enabled(s, a)
    ensures Inv(Apply(s, a))
  {
    var s' := Apply(s, a);
    PendingKept(s, a);
    forall r
      ensures Times(s'.scheduled, r) == Places(s', r)
    {
      assert Times(s.scheduled, r) == Places(s, r);
      PlacesKept(s, a, r);
    }
    WakeupsKept(s, a);
    forall j: nat | j < |s'.workers| {
      WorkerKept(s, a, j);
    }
    assert Conserved(s');
    FlagsKept(s, a);
  }

  lemma FlagsKept(s: State, a: Action)
    requires Inv(s) && Enabled(s, a)
    ensures FlagsInOrder(Apply(s, a)) && Numbered(Apply(s, a))
    ensures Apply(s, a).main.Joining? ==> Apply(s, a).main.k < |Apply(s, a).workers|
  {
    if a.Step? {
      assert WorkerOk(s, a.i);
      FlagsStep(s, a.i);
    } else {
      hide PendingExact, Conserved, NoLostWakeup, WorkerOk;
    }
  }

  lemma FlagsStep(s: State, i: nat)
    requires PendingExact(s) && FlagsInOrder(s) && Numbered(s) && Enabled(s, Step(i))
    requires s.main.Joining? ==> s.main.k < |s.workers|
    ensures FlagsInOrder(StepWorker(s, i)) && Numbered(StepWorker(s, i))
    ensures StepWorker(s, i).main.Joining? ==> StepWorker(s, i).main.k < |StepWorker(s, i).workers|
  {
    SumAtLeast(s.workers, i, Owing);
    hide Sum;
  }

  /** The invariant holds after every run, whatever the interleaving. */
  lemma {:induction false} InvAlways(s: State, run: seq<Action>)
    requires Inv(s) && IsRun(s, run)
    ensures Inv(After(s, run))
    decreases |run|
  {
    if run != [] {
      InvApply(s, run[0]);
      InvAlways(Apply(s, run[0]), run[1..]);
    }
  }

  lemma ReachableInv(s: State)
    requires Reachable(s)
    ensures Inv(s)
  {
    var n, run :| IsRun(Init(n), run) && After(Init(n), run) == s;
    InvInit(n);
    InvAlways(Init(n), run);
  }

  // ---------------------------------------------------------------- what wait() promises

  lemma TimesMember(s: seq<Request>, r: Request) returns (k: nat)
    requires Times(s, r) > 0
    ensures k < |s| && s[k] == r
  {
    if s[0] == r {
      k := 0;
    } else {
      k := TimesMember(s[1..], r);
      k := k + 1;
    }
  }

  /** A request is scheduled once and so is in at most one place. */
  lemma ScheduledOnce(s: State, r: Request)
    requires Inv(s) && Places(s, r) > 0
    ensures r.id < |s.scheduled| && s.scheduled[r.id] == r && Places(s, r) == 1
  {
    hide PendingExact, FlagsInOrder, NoLostWakeup, WorkerOk, Places;
    assert Times(s.scheduled, r) == Places(s, r);
    var k := TimesMember(s.scheduled, r);
    assert s.scheduled[k].id == k;
    TimesOne(s.scheduled, k);
  }

  /** When wait() returns, every request scheduled so far has run exactly once, and nothing else has. */
  lemma WaitReturns(s: State)
    requires Reachable(s) && s.main.WaitEnter? && !Apply(s, TestPending).main.WaitAsleep?
    ensures forall r :: Times(s.ran, r) == if r in s.scheduled then 1 else 0
    ensures s.queue == [] && forall i | 0 <= i < |s.workers| :: Owing(s.workers[i]) == 0
  {
    ReachableInv(s);
    NothingPending(s);
    forall i | 0 <= i < |s.workers|
      ensures Owing(s.workers[i]) == 0
    {
      SumAtLeast(s.workers, i, Owing);
    }
    forall r
      ensures Times(s.ran, r) == if r in s.scheduled then 1 else 0
    {
      if r in s.scheduled {
        var k :| 0 <= k < |s.scheduled| && s.scheduled[k] == r;
        TimesOfElement(s.scheduled, k);
        ScheduledOnce(s, r);
      } else {
        TimesZero(s.scheduled, r);
      }
    }
  }

  lemma NothingPending(s: State)
    requires Inv(s) && s.pending == 0
    ensures forall r :: Times(s.ran, r) == Times(s.scheduled, r)
    ensures s.queue == [] && s.dropped == [] && Sum(s.workers, Owing) == 0
  {
    NothingToDrain(s);
    forall r
      ensures Times(s.ran, r) == Times(s.scheduled, r)
    {
      assert Times(s.scheduled, r) == Places(s, r);
      HoldersOwe(s.workers, r);
    }
  }

  lemma {:induction false} HoldersOwe(ws: seq<Worker>, r: Request)
    ensures Sum(ws, Holding(r)) <= Sum(ws, Owing)
  {
    if ws != [] {
      HoldersOwe(ws[1..], r);
    }
  }

  // ---------------------------------------------------------------- wakeups and the null request

  /** The worker is on its way to the queue, or will come back to it. */
  predicate Serving(w: Worker) {
    w.Entering? || w.Got? || w.Running? || w.Finishing?
  }

  ghost function Gone(w: Worker): nat {
    if w.Exited? then 1 else 0
  }

  lemma LeaversWorker(s: State, i: nat)
    requires Enabled(s, Step(i)) && |s.dropped| <= Sum(s.workers, Gone)
    ensures |StepWorker(s, i).dropped| <= Sum(StepWorker(s, i).workers, Gone)
  {
    var w := StepWorker(s, i).workers[i];
    SumUpdate(s.workers, i, w, Gone);
    hide Sum;
    assert StepWorker(s, i).workers == s.workers[i := w];
  }

  lemma LeaversWake(ws: seq<Worker>, i: nat)
    requires i < |ws| && ws[i].Asleep?
    ensures Sum(ws[i := Entering], Gone) == Sum(ws, Gone)
  {
    SumUpdate(ws, i, Entering, Gone);
  }

  /** Every dropped request was dropped by a worker that left. */
  lemma LeaversStep(s: State, a: Action)
    requires Enabled(s, a) && |s.dropped| <= Sum(s.workers, Gone)
    ensures |Apply(s, a).dropped| <= Sum(Apply(s, a).workers, Gone)
  {
    hide Sum, StepWorker, WakeAll;
    match a {
      case Step(i) => LeaversWorker(s, i);
      case Push(i) =>
        if AnyAsleep(s.workers) {
          LeaversWake(s.workers, i);
        }
      case SpuriousWake(i) => LeaversWake(s.workers, i);
      case NotifyAll => WakeAllFacts(s.workers, Gone);
      case _ =>
    }
  }

  lemma {:induction false} LeaversAfter(s: State, run: seq<Action>)
    requires IsRun(s, run) && |s.dropped| <= Sum(s.workers, Gone)
    ensures |After(s, run).dropped| <= Sum(After(s, run).workers, Gone)
    decreases |run|
  {
    hide Apply, Enabled;
    if run != [] {
      LeaversStep(s, run[0]);
      LeaversAfter(Apply(s, run[0]), run[1..]);
    }
  }

  /**
   * With requests queued, no worker has left the pool if and only if no request has been dropped.
   * Then all workers serve the queue but those asleep, and while any sleeps, as many are on their
   * way to the queue as there are requests.
   */
  lemma QueuedWorkIsSeen(s: State)
    requires Reachable(s) && s.queue != [] && s.workers != []
    ensures s.dropped == [] <==> forall i | 0 <= i < |s.workers| :: s.workers[i].Asleep? || Serving(s.workers[i])
    ensures AnyAsleep(s.workers) ==> |s.queue| <= Sum(s.workers, AtQueue)
    ensures s.dropped == [] ==> exists i :: 0 <= i < |s.workers| && Serving(s.workers[i])
  {
    ReachableInv(s);
    if s.dropped == [] {
      forall i | 0 <= i < |s.workers| ensures s.workers[i].Asleep? || Serving(s.workers[i]) {
        assert WorkerOk(s, i);
      }
      if AnyAsleep(s.workers) {
        var i := SumPositive(s.workers, AtQueue);
        assert Serving(s.workers[i]);
      } else {
        assert Serving(s.workers[0]);
      }
    } else {
      var n, run :| IsRun(Init(n), run) && After(Init(n), run) == s;
      LeaversAfter(Init(n), run);
      var i := SumPositive(s.workers, Gone);
    }
  }

  /** The requests pushed so far: all that are scheduled but one that is just being pushed. */
  ghost function PushedBy(s: State): seq<Request> {
    if s.main.Pushing? && s.scheduled != [] then s.scheduled[..|s.scheduled| - 1] else s.scheduled
  }

  /** The queue is the end of what has been pushed, in that order. */
  ghost predicate InOrder(s: State) {
    && (s.main.Pushing? ==> s.scheduled != [] && s.main.req == s.scheduled[|s.scheduled| - 1])
    && |s.queue| <= |PushedBy(s)| && s.queue == PushedBy(s)[|PushedBy(s)| - |s.queue|..]
  }

  lemma InOrderApply(s: State, a: Action)
    requires InOrder(s) && Enabled(s, a)
    ensures InOrder(Apply(s, a))
  {
    hide InOrder, StepWorker;
    match a
    case Schedule(room) => InOrderScheduled(s, room);
    case Push(i) => InOrderPushed(s, i);
    case Drain => InOrderMoved(s, Apply(s, a));
    case _ =>
      QueueSteps(s, a);
      hide Apply, Enabled;
      InOrderMoved(s, Apply(s, a));
  }

  lemma InOrderScheduled(s: State, room: nat)
    requires InOrder(s) && s.main.Ready?
    ensures InOrder(Apply(s, Schedule(room)))
  {
    assert PushedBy(Apply(s, Schedule(room))) == PushedBy(s);
  }

  lemma InOrderPushed(s: State, i: nat)
    requires InOrder(s) && Enabled(s, Push(i))
    ensures InOrder(Apply(s, Push(i)))
  {
    assert PushedBy(Apply(s, Push(i))) == PushedBy(s) + [s.main.req];
  }

  lemma InOrderMoved(s: State, t: State)
    requires InOrder(s) && t.scheduled == s.scheduled
    requires t.queue == s.queue || t.queue == [] || (s.queue != [] && t.queue == s.queue[1..])
    requires (t.main.Pushing? <==> s.main.Pushing?) && (t.main.Pushing? ==> t.main == s.main)
    ensures InOrder(t)
  {
    assert PushedBy(t) == PushedBy(s);
  }

  lemma QueueSteps(s: State, a: Action)
    requires Enabled(s, a) && !a.Schedule? && !a.Push? && !a.Drain?
    ensures var t := Apply(s, a);
            && t.scheduled == s.scheduled && (t.queue == s.queue || (s.queue != [] && t.queue == s.queue[1..]))
            && (t.main.Pushing? <==> s.main.Pushing?) && (t.main.Pushing? ==> t.main == s.main)
  {
  }

  lemma {:induction false} InOrderAlways(s: State, run: seq<Action>)
    requires InOrder(s) && IsRun(s, run)
    ensures InOrder(After(s, run))
    decreases |run|
  {
    hide InOrder, Apply, Enabled;
    if run != [] {
      InOrderApply(s, run[0]);
      InOrderAlways(Apply(s, run[0]), run[1..]);
    }
  }

  /**
   * Requests leave the queue in the order they were scheduled: in every reachable state the queue is
   * the end of what has been pushed, so all requests pushed before its front have been taken.
   */
  lemma FirstInFirstOut(s: State)
    requires Reachable(s)
    ensures |s.queue| <= |PushedBy(s)| && s.queue == PushedBy(s)[|PushedBy(s)| - |s.queue|..]
  {
    hide IsRun, After, Init;
    var n, run :| IsRun(Init(n), run) && After(Init(n), run) == s;
    InOrderInit(n);
    InOrderAlways(Init(n), run);
  }

  lemma InOrderInit(n: nat)
    ensures InOrder(Init(n))
  {
  }

  lemma {:induction false} WorkersStayAll(s: State, run: seq<Action>)
    requires IsRun(s, run)
    ensures |After(s, run).workers| == |s.workers|
    decreases |run|
  {
    hide Apply, Enabled;
    if run != [] {
      WorkersStay(s, run[0]);
      WorkersStayAll(Apply(s, run[0]), run[1..]);
    }
  }

  /** Activating with n threads starts n workers at the queue, and there are n of them ever after. */
  lemma ActivatedWorkers(n: nat, run: seq<Action>)
    requires IsRun(Init(n), run)
    ensures |After(Init(n), run).workers| == n
    ensures forall i | 0 <= i < |Init(n).workers| :: Init(n).workers[i].Entering?
  {
    WorkersStayAll(Init(n), run);
  }

  lemma {:induction false} RunExtends(s: State, run: seq<Action>, a: Action)
    requires IsRun(s, run) && Enabled(After(s, run), a)
    ensures IsRun(s, run + [a]) && After(s, run + [a]) == Apply(After(s, run), a)
    decreases |run|
  {
    hide Apply, Enabled;
    if run == [] {
      assert run + [a] == [a] && [a][1..] == [];
    } else {
      assert (run + [a])[0] == run[0] && (run + [a])[1..] == run[1..] + [a];
      RunExtends(Apply(s, run[0]), run[1..], a);
    }
  }

  lemma ReachableStep(s: State, a: Action)
    requires Reachable(s) && Enabled(s, a)
    ensures Reachable(Apply(s, a))
  {
    hide Apply, Enabled;
    var n, run :| IsRun(Init(n), run) && After(Init(n), run) == s;
    RunExtends(Init(n), run, a);
  }

  lemma InitIsReachable(n: nat)
    ensures Reachable(Init(n))
  {
    assert IsRun(Init(n), []) && After(Init(n), []) == Init(n);
  }

  /** One request scheduled with the only worker awake. */
  lemma ScheduleOne(s: State) returns (t: State)
    requires Reachable(s) && s.main.Ready? && s.workers == [Entering]
    ensures Reachable(t)
    ensures var r := Request(|s.scheduled|, 0);
            t == s.(pending := s.pending + 1, queue := s.queue + [r], scheduled := s.scheduled + [r])
  {
    hide Reachable;
    ReachableStep(s, Schedule(0));
    var u := Apply(s, Schedule(0));
    assert !AnyAsleep(u.workers);
    ReachableStep(u, Push(0));
    var v := Apply(u, Push(0));
    ReachableStep(v, Unlock);
    t := Apply(v, Unlock);
  }

  /** Two requests, the token, and the only worker leaves with one: the other is seen by nobody. */
  lemma QueuedWorkUnseen() returns (s: State)
    ensures Reachable(s) && s.queue != [] && s.workers == [Exited]
  {
    hide Reachable;
    InitIsReachable(1);
    assert Init(1).workers == [Entering];
    s := ScheduleOne(Init(1));
    s := ScheduleOne(s);
    ReachableStep(s, Deactivate);
    s := Apply(s, Deactivate);
    ReachableStep(s, Step(0));
    s := Apply(s, Step(0));
    ReachableStep(s, Step(0));
    s := Apply(s, Step(0));
  }

  /** No worker calls a null request, and the main thread never sleeps with nothing pending. */
  lemma NoNullCall(s: State, i: nat)
    requires Reachable(s) && i < |s.workers|
    ensures !s.workers[i].Crashed? && (s.workers[i].GotNothing? ==> s.token && s.shutdown)
    ensures s.main.WaitAsleep? ==> s.pending > 0
  {
    ReachableInv(s);
    assert WorkerOk(s, i);
  }

  /** Cancel finds an empty queue, so it deletes no request. */
  lemma CancelDeletesNothing(s: State)
    requires Reachable(s) && s.main.Cancelling?
    ensures s.queue == [] && s.dropped == [] && Apply(s, Drain) == s.(shutdown := true, main := Notifying)
  {
    ReachableInv(s);
    NothingToDrain(s);
  }

  // ---------------------------------------------------------------- completion of wait() and deactivate()

  predicate Ordinary(a: Action) {
    !a.SpuriousWake? && !a.SpuriousMainWake?
  }

  predicate Finished(s: State) {
    s.main.Ready? || s.main.Done?
  }

  predicate InCall(m: Main) {
    m.WaitEnter? || m.WaitAsleep? || m.Cancelling? || m.Notifying? || m.Joining?
  }

  /** However the threads interleave, the call in progress returns within `bound` steps. */
  ghost predicate AlwaysReturns(s: State, bound: nat)
    decreases bound
  {
    Finished(s) ||
    (bound > 0
     && (exists a :: Ordinary(a) && Enabled(s, a))
     && forall a | Ordinary(a) && Enabled(s, a) :: AlwaysReturns(Apply(s, a), bound - 1))
  }

  ghost function Load(w: Worker): nat {
    match w
    case Got(_) => 5
    case Running(_) => 4
    case Finishing(_) => 3
    case Entering => 2
    case Asleep => 1
    case GotNothing => 1
    case Exited => 0
    case Crashed => 0
  }

  ghost function PhaseLoad(m: Main, n: nat): nat {
    match m
    case WaitEnter(_) => 4 * (3 * n + 3) + 1
    case WaitAsleep(_) => 4 * (3 * n + 3)
    case Cancelling => 3 * (3 * n + 3)
    case Notifying => 2 * (3 * n + 3)
    case Joining(k) => 3 * n + 3 + if k < n then n - k else 0
    case _ => 0
  }

  /** An upper bound on the steps left in the call in progress. */
  ghost function Measure(s: State): nat {
    PhaseLoad(s.main, |s.workers|) + 2 * (4 * |s.queue| + Sum(s.workers, Load))
  }

  lemma {:induction false} WakeAllLoad(ws: seq<Worker>)
    ensures Sum(WakeAll(ws), Load) <= Sum(ws, Load) + |ws|
  {
    if ws != [] {
      assert WakeAll(ws)[1..] == WakeAll(ws[1..]);
      WakeAllLoad(ws[1..]);
    }
  }

  lemma LoadStep(s: State, i: nat)
    requires Enabled(s, Step(i))
    ensures 4 * |StepWorker(s, i).queue| + Sum(StepWorker(s, i).workers, Load) < 4 * |s.queue| + Sum(s.workers, Load)
  {
    var w := StepWorker(s, i).workers[i];
    SumUpdate(s.workers, i, w, Load);
    hide Sum;
    assert StepWorker(s, i).workers == s.workers[i := w];
    assert 4 * |StepWorker(s, i).queue| + Load(w) < 4 * |s.queue| + Load(s.workers[i]);
  }

  /** A worker's step may wake the main thread, which its load pays for. */
  lemma PhaseStep(s: State, i: nat)
    requires InCall(s.main) && Enabled(s, Step(i))
    ensures |StepWorker(s, i).workers| == |s.workers|
    ensures PhaseLoad(StepWorker(s, i).main, |s.workers|) <= PhaseLoad(s.main, |s.workers|) + 1
  {
  }

  lemma MeasureStep(s: State, i: nat)
    requires InCall(s.main) && Enabled(s, Step(i))
    ensures Measure(StepWorker(s, i)) < Measure(s)
  {
    LoadStep(s, i);
    PhaseStep(s, i);
    hide Sum, PhaseLoad, StepWorker, Enabled;
  }

  lemma MeasureNotify(s: State)
    requires Enabled(s, NotifyAll)
    ensures Measure(Apply(s, NotifyAll)) < Measure(s)
  {
    WakeAllLoad(s.workers);
    hide Sum, WakeAll;
  }

  lemma MeasureMain(s: State, a: Action)
    requires InCall(s.main) && Ordinary(a) && Enabled(s, a) && !a.Step? && !a.NotifyAll?
    ensures Measure(Apply(s, a)) < Measure(s)
  {
    hide Sum;
  }

  lemma MeasureDrops(s: State, a: Action)
    requires InCall(s.main) && Ordinary(a) && Enabled(s, a)
    ensures Measure(Apply(s, a)) < Measure(s)
  {
    hide Measure, StepWorker;
    match a {
      case Step(i) => MeasureStep(s, i);
      case NotifyAll => MeasureNotify(s);
      case _ => MeasureMain(s, a);
    }
  }

  /** No request is left that a worker could drop on seeing the token. */
  predicate NothingToDrop(s: State) {
    s.queue == [] && s.dropped == [] && forall i | 0 <= i < |s.workers| :: !s.workers[i].Got?
  }

  lemma NothingToDropKept(s: State, a: Action)
    requires Inv(s) && s.token && NothingToDrop(s) && Enabled(s, a)
    ensures Apply(s, a).token && NothingToDrop(Apply(s, a))
  {
    hide PendingExact, Conserved, NoLostWakeup, WorkerOk;
  }

  /** Some thread can take a step: no deadlock. */
  lemma NotStuck(s: State) returns (a: Action)
    requires Inv(s) && s.workers != [] && InCall(s.main) && s.dropped == []
    ensures Ordinary(a) && Enabled(s, a)
  {
    hide Conserved;
    match s.main {
      case WaitEnter(_) => a := TestPending;
      case Cancelling => a := Drain;
      case Notifying => a := NotifyAll;
      case Joining(k) =>
        assert WorkerOk(s, k);
        SumAtLeast(s.workers, k, Owing);
        a := if s.workers[k].Exited? then Join else Step(k);
      case WaitAsleep(_) =>
        var i: nat;
        if Sum(s.workers, Owing) > 0 {
          i := SumPositive(s.workers, Owing);
        } else if AnyAsleep(s.workers) {
          i := SumPositive(s.workers, AtQueue);
        } else {
          i := 0;
        }
        assert WorkerOk(s, i);
        a := Step(i);
    }
  }

  /** wait() always returns, and so does deactivate() when there is nothing a worker could drop. */
  lemma {:induction false} CallsReturn(s: State)
    requires Inv(s) && s.workers != [] && (s.token ==> NothingToDrop(s))
    requires InCall(s.main) || Finished(s)
    ensures AlwaysReturns(s, Measure(s))
    decreases Measure(s), 1
  {
    hide Inv, Measure, Apply, Enabled, NothingToDrop;
    if !Finished(s) {
      assert s.dropped == [] by {
        NothingDroppedYet(s);
      }
      var a0 := NotStuck(s);
      MeasureDrops(s, a0);
      forall a | Ordinary(a) && Enabled(s, a)
        ensures AlwaysReturns(Apply(s, a), Measure(s) - 1)
      {
        ReturnsAfter(s, a);
      }
    }
  }

  lemma NothingDroppedYet(s: State)
    requires Inv(s) && (s.token ==> NothingToDrop(s))
    ensures s.dropped == []
  {
  }

  lemma StaysInCall(s: State, a: Action)
    requires InCall(s.main) && Enabled(s, a)
    ensures InCall(Apply(s, a).main) || Finished(Apply(s, a))
    ensures |Apply(s, a).workers| == |s.workers|
    ensures Apply(s, a).token == s.token
  {
  }

  lemma {:induction false} ReturnsAfter(s: State, a: Action)
    requires Inv(s) && s.workers != [] && (s.token ==> NothingToDrop(s))
    requires InCall(s.main) && Ordinary(a) && Enabled(s, a)
    ensures Measure(s) > 0 && AlwaysReturns(Apply(s, a), Measure(s) - 1)
    decreases Measure(s), 0
  {
    hide Inv, Measure, Enabled, NothingToDrop, AlwaysReturns;
    MeasureDrops(s, a);
    InvApply(s, a);
    StaysInCall(s, a);
    if s.token {
      NothingToDropKept(s, a);
    }
    hide Apply;
    CallsReturn(Apply(s, a));
    MoreTime(Apply(s, a), Measure(Apply(s, a)), Measure(s) - 1);
  }

  lemma {:induction false} MoreTime(s: State, bound: nat, more: nat)
    requires AlwaysReturns(s, bound) && bound <= more
    ensures AlwaysReturns(s, more)
    decreases bound
  {
    if !Finished(s) {
      forall a | Ordinary(a) && Enabled(s, a)
        ensures AlwaysReturns(Apply(s, a), more - 1)
      {
        MoreTime(Apply(s, a), bound - 1, more - 1);
      }
    }
  }

  /**
   * A request that is queued, popped or dropped once the token is set can make deactivate() hang:
   * then no bound works. The witness interleaving lets one worker take the request and exit.
   */
  lemma {:induction false} DroppedRequestHangs(s: State, bound: nat)
    requires Inv(s) && s.workers != [] && s.token && (s.main.WaitEnter? || s.main.WaitAsleep?)
    requires !NothingToDrop(s)
    ensures !AlwaysReturns(s, bound)
    decreases bound
  {
    hide Conserved;
    if AlwaysReturns(s, bound) {
      var a: Action;
      if s.dropped != [] {
        a :| Ordinary(a) && Enabled(s, a);
      } else if i :| 0 <= i < |s.workers| && s.workers[i].Got? {
        a := Step(i);
      } else {
        var i: nat := 0;
        if AnyAsleep(s.workers) {
          i := SumPositive(s.workers, AtQueue);
        }
        assert WorkerOk(s, i);
        a := Step(i);
      }
      StillToDrop(s, a);
      InvApply(s, a);
      DroppedRequestHangs(Apply(s, a), bound - 1);
    }
  }

  lemma StillToDrop(s: State, a: Action)
    requires Inv(s) && s.token && (s.main.WaitEnter? || s.main.WaitAsleep?) && Enabled(s, a)
    requires s.dropped != [] || (a.Step? && (s.workers[a.i].Got? || s.queue != []))
    ensures var s' := Apply(s, a);
            s'.token && (s'.main.WaitEnter? || s'.main.WaitAsleep?) && !NothingToDrop(s')
  {
    hide Conserved, NoLostWakeup, WorkerOk;
    var s' := Apply(s, a);
    if s.dropped == [] && s.workers[a.i].Entering? {
      assert s'.workers[a.i].Got?;
    }
  }

  /** deactivate() is certain to return exactly when no request is queued or just popped at its start. */
  lemma DeactivateReturnsIff(s: State)
    requires Reachable(s) && s.main.Ready? && s.workers != []
    ensures (exists bound: nat :: AlwaysReturns(Apply(s, Deactivate), bound)) <==> NothingToDrop(s)
  {
    ReachableInv(s);
    InvApply(s, Deactivate);
    var s' := Apply(s, Deactivate);
    if NothingToDrop(s) {
      CallsReturn(s');
    } else {
      forall bound: nat
        ensures !AlwaysReturns(s', bound)
      {
        DroppedRequestHangs(s', bound);
      }
    }
  }

  /** When deactivate() has returned, every worker has exited. */
  lemma DoneMeansExited(s: State)
    requires Reachable(s) && s.main.Done?
    ensures forall i | 0 <= i < |s.workers| :: s.workers[i].Exited?
    ensures s.queue == [] && forall r :: Times(s.ran, r) == Times(s.scheduled, r)
  {
    ReachableInv(s);
    NothingPending(s);
    forall i | 0 <= i < |s.workers|
      ensures s.workers[i].Exited?
    {
      assert WorkerOk(s, i);
    }
  }

  // ---------------------------------------------------------------- RoomManager as the only client

  /** next counts the rooms scheduled in the current RoomManager::Update; 0 between updates. */
  datatype Managed = Managed(s: State, next: nat)

  predicate Permits(rooms: seq<nat>, g: Managed, a: Action) {
    && Enabled(g.s, a)
    && match a
       case Schedule(room) => g.next < |rooms| && room == rooms[g.next]
       case CallWait => g.next == |rooms|
       case Deactivate => g.next == 0
       case _ => true
  }

  function ManagedApply(rooms: seq<nat>, g: Managed, a: Action): Managed
    requires Permits(rooms, g, a)
  {
    var s' := Apply(g.s, a);
    Managed(s', if a.Schedule? then g.next + 1 else if a.TestPending? && s'.main.Ready? then 0 else g.next)
  }

  ghost predicate IsManagedRun(rooms: seq<nat>, g: Managed, run: seq<Action>)
    decreases |run|
  {
    run == [] || (Permits(rooms, g, run[0]) && IsManagedRun(rooms, ManagedApply(rooms, g, run[0]), run[1..]))
  }

  ghost function ManagedAfter(rooms: seq<nat>, g: Managed, run: seq<Action>): Managed
    requires IsManagedRun(rooms, g, run)
    decreases |run|
  {
    if run == [] then g else ManagedAfter(rooms, ManagedApply(rooms, g, run[0]), run[1..])
  }

  ghost predicate Distinct(rooms: seq<nat>) {
    forall i, j | 0 <= i < j < |rooms| :: rooms[i] != rooms[j]
  }

  ghost predicate ThisRound(rooms: seq<nat>, g: Managed) {
    && g.next <= |rooms| && g.next <= |g.s.scheduled|
    && forall k | 0 <= k < g.next :: g.s.scheduled[|g.s.scheduled| - g.next + k].room == rooms[k]
  }

  /** Everything scheduled in earlier rounds has run. */
  ghost predicate EarlierRan(g: Managed) {
    g.next <= |g.s.scheduled| &&
    forall k | 0 <= k < |g.s.scheduled| - g.next :: Times(g.s.ran, g.s.scheduled[k]) >= 1
  }

  ghost predicate ManagedInv(rooms: seq<nat>, g: Managed) {
    Inv(g.s) && ThisRound(rooms, g) && EarlierRan(g)
  }

  lemma RanGrows(s: State, a: Action, r: Request)
    requires Enabled(s, a)
    ensures Times(Apply(s, a).ran, r) >= Times(s.ran, r)
  {
    if a.Step? && s.workers[a.i].Running? {
      TimesAppend(s.ran, s.workers[a.i].req, r);
    }
  }

  lemma ManagedKept(rooms: seq<nat>, g: Managed, a: Action)
    requires ManagedInv(rooms, g) && Permits(rooms, g, a)
    ensures ManagedInv(rooms, ManagedApply(rooms, g, a))
  {
    hide Conserved, NoLostWakeup, WorkerOk, FlagsInOrder;
    var g' := ManagedApply(rooms, g, a);
    InvApply(g.s, a);
    forall k | 0 <= k < |g'.s.scheduled| - g'.next
      ensures Times(g'.s.ran, g'.s.scheduled[k]) >= 1
    {
      if k < |g.s.scheduled| - g.next {
        RanGrows(g.s, a, g.s.scheduled[k]);
      } else {
        NothingPending(g.s);
        TimesOfElement(g.s.scheduled, k);
      }
    }
  }

  lemma {:induction false} ManagedAlways(rooms: seq<nat>, g: Managed, run: seq<Action>)
    requires ManagedInv(rooms, g) && IsManagedRun(rooms, g, run)
    ensures ManagedInv(rooms, ManagedAfter(rooms, g, run))
    decreases |run|
  {
    hide ManagedInv;
    if run != [] {
      ManagedKept(rooms, g, run[0]);
      ManagedAlways(rooms, ManagedApply(rooms, g, run[0]), run[1..]);
    }
  }

  ghost predicate ManagedReachable(rooms: seq<nat>, g: Managed) {
    exists n: nat, run: seq<Action> ::
      IsManagedRun(rooms, Managed(Init(n), 0), run) && ManagedAfter(rooms, Managed(Init(n), 0), run) == g
  }

  lemma ManagedReachableInv(rooms: seq<nat>, g: Managed)
    requires ManagedReachable(rooms, g)
    ensures ManagedInv(rooms, g)
  {
    var n, run :| IsManagedRun(rooms, Managed(Init(n), 0), run) && ManagedAfter(rooms, Managed(Init(n), 0), run) == g;
    InvInit(n);
    ManagedAlways(rooms, Managed(Init(n), 0), run);
  }

  /** How often r is queued or held by a worker that has not finished running it. */
  ghost function Outstanding(s: State, r: Request): nat {
    Times(s.queue, r) + Sum(s.workers, Holding(r))
  }

  lemma RanMeansDone(s: State, r: Request)
    requires Inv(s) && Times(s.ran, r) >= 1
    ensures Outstanding(s, r) == 0
  {
    hide PendingExact, NoLostWakeup, WorkerOk, FlagsInOrder;
    ScheduledOnce(s, r);
  }

  lemma OutstandingIsRecent(rooms: seq<nat>, g: Managed, r: Request)
    requires ManagedInv(rooms, g) && Outstanding(g.s, r) > 0
    ensures Outstanding(g.s, r) == 1
    ensures |g.s.scheduled| - g.next <= r.id < |g.s.scheduled| && g.s.scheduled[r.id] == r
  {
    hide PendingExact, NoLostWakeup, WorkerOk, FlagsInOrder;
    ScheduledOnce(g.s, r);
    if Times(g.s.ran, r) >= 1 {
      RanMeansDone(g.s, r);
    }
  }

  /** Each room has at most one request queued or running, so Room::Update never overlaps itself. */
  lemma OneRequestPerRoom(rooms: seq<nat>, g: Managed, r: Request, r': Request)
    requires Distinct(rooms) && ManagedReachable(rooms, g)
    requires Outstanding(g.s, r) > 0 && Outstanding(g.s, r') > 0 && r.room == r'.room
    ensures r == r' && Outstanding(g.s, r) == 1
  {
    ManagedReachableInv(rooms, g);
    OutstandingIsRecent(rooms, g, r);
    OutstandingIsRecent(rooms, g, r');
    var b := |g.s.scheduled| - g.next;
    assert g.s.scheduled[b + (r.id - b)].room == rooms[r.id - b];
    assert g.s.scheduled[b + (r'.id - b)].room == rooms[r'.id - b];
  }

  /** Between updates, when the main thread may call AddPlayer, no room is queued or running. */
  lemma QuietBetweenUpdates(rooms: seq<nat>, g: Managed)
    requires ManagedReachable(rooms, g) && g.s.main.Ready? && g.next == 0
    ensures forall r :: Outstanding(g.s, r) == 0
    ensures forall i | 0 <= i < |g.s.workers| :: !g.s.workers[i].Running?
  {
    ManagedReachableInv(rooms, g);
    forall r
      ensures Outstanding(g.s, r) == 0
    {
      if Outstanding(g.s, r) > 0 {
        OutstandingIsRecent(rooms, g, r);
      }
    }
    forall i | 0 <= i < |g.s.workers|
      ensures !g.s.workers[i].Running?
    {
      var w := g.s.workers[i];
      if w.Running? {
        var here := Outstanding(g.s, w.req);
        SumAtLeast(g.s.workers, i, Holding(w.req));
      }
    }
  }

  /**
   * The hang needs a caller who deactivates with work outstanding: RoomManager, which does so only
   * between updates, always gets back from deactivate().
   */
  lemma ManagedDeactivateReturns(rooms: seq<nat>, g: Managed)
    requires ManagedReachable(rooms, g) && Permits(rooms, g, Deactivate) && g.s.workers != []
    ensures exists bound: nat :: AlwaysReturns(Apply(g.s, Deactivate), bound)
  {
    QuietBetweenUpdates(rooms, g);
    ManagedReachableInv(rooms, g);
    var s := g.s;
    if s.queue != [] {
      var here := Outstanding(s, s.queue[0]);
      TimesOfElement(s.queue, 0);
    }
    forall i | 0 <= i < |s.workers| ensures !s.workers[i].Got? {
      var w := s.workers[i];
      if w.Got? {
        var here := Outstanding(s, w.req);
        SumAtLeast(s.workers, i, Holding(w.req));
      }
    }
    assert NothingToDrop(s);
    InvApply(s, Deactivate);
    CallsReturn(Apply(s, Deactivate));
  }
}
