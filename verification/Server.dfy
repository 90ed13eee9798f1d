/** The server's worker protocol as a system of atomic steps: one acceptor, any number of workers, a mutex, a condition
    variable with spurious wakeups, and a queue of requests. */
module Server {
  import opened Options

  /** The acceptor, between two atomic steps. The steps from `Adding` to `Releasing` hold the mutex. */
  datatype Acceptor =
    | AtLoopTest
    | Accepting
    | WantsLock(request: nat)
    | Adding(request: nat)
    | Releasing
    | Broadcasting
    | AcceptorDone

  /** A worker, between two atomic steps. `Peeking`, `Popping`, `Popped` and `AfterWait` hold the mutex. */
  datatype Worker =
    | Testing
    | Locking
    | Peeking
    | Asleep
    | Waking
    | AfterWait
    | Popping
    | Popped(request: nat)
    | Serving(request: nat)
    | Stopped

  datatype Thread = AcceptorThread | WorkerThread(w: nat)

  datatype State = State(
    keepAlive: bool,
    holder: Option<Thread>,
    queue: seq<nat>,
    acceptor: Acceptor,
    workers: seq<Worker>,
    accepted: seq<nat>,
    dequeued: seq<nat>,
    closed: set<nat>)

  /** `Spurious` is a wakeup without a broadcast; `Stop` ends the loops at any moment. */
  datatype Step = AcceptorStep | Connect | ConnectFails | WorkerStep(w: nat) | Spurious(w: nat) | Stop

  function Init(workers: nat): State {
    State(true, None, [], AtLoopTest, seq(workers, _ => Testing), [], [], {})
  }

  // ----- the steps

  predicate Enabled(s: State, step: Step) {
    match step
    case AcceptorStep =>
      !s.acceptor.Accepting? && s.acceptor != AcceptorDone && (s.acceptor.WantsLock? ==> s.holder == None)
    case Connect => s.acceptor == Accepting
    case ConnectFails => s.acceptor == Accepting
    case WorkerStep(w) =>
      && w < |s.workers| && s.workers[w] != Asleep && s.workers[w] != Stopped
      && (s.workers[w] == Locking || s.workers[w] == Waking ==> s.holder == None)
    case Spurious(w) => w < |s.workers| && s.workers[w] == Asleep
    case Stop => true
  }

  function Do(s: State, step: Step): State
    requires Enabled(s, step)
  {
    match step
    case AcceptorStep => DoAcceptor(s)
    case Connect =>
      var request := |s.accepted|;
      s.(accepted := s.accepted + [request], acceptor := WantsLock(request))
    case ConnectFails => s.(acceptor := AtLoopTest)
    case WorkerStep(w) => DoWorker(s, w)
    case Spurious(w) => s.(workers := s.workers[w := Waking])
    case Stop => s.(keepAlive := false)
  }

  function DoAcceptor(s: State): State {
    match s.acceptor
    case AtLoopTest => s.(acceptor := if s.keepAlive then Accepting else AcceptorDone)
    case WantsLock(r) => s.(holder := Some(AcceptorThread), acceptor := Adding(r))
    case Adding(r) => s.(queue := s.queue + [r], acceptor := Releasing)
    case Releasing => s.(holder := None, acceptor := Broadcasting)
    case Broadcasting => s.(workers := Woken(s.workers), acceptor := AtLoopTest)
    case _ => s
  }

  function Woken(ws: seq<Worker>): (r: seq<Worker>)
    ensures |r| == |ws| && forall i :: 0 <= i < |ws| ==> r[i] == if ws[i] == Asleep then Waking else ws[i]
  {
    seq(|ws|, i requires 0 <= i < |ws| => if ws[i] == Asleep then Waking else ws[i])
  }

  /** Waiting on the condition releases the mutex in the same step. An empty queue pops nothing. */
  function DoWorker(s: State, w: nat): State
    requires w < |s.workers|
  {
    match s.workers[w]
    case Testing => s.(workers := s.workers[w := if s.keepAlive then Locking else Stopped])
    case Locking => s.(holder := Some(WorkerThread(w)), workers := s.workers[w := Peeking])
    case Peeking =>
      if s.queue == [] then s.(holder := None, workers := s.workers[w := Asleep])
      else s.(workers := s.workers[w := Popping])
    case Waking => s.(holder := Some(WorkerThread(w)), workers := s.workers[w := AfterWait])
    case AfterWait => s.(holder := None, workers := s.workers[w := Testing])
    case Popping =>
      if s.queue == [] then s
      else
        s.(queue := s.queue[1..], dequeued := s.dequeued + [s.queue[0]],
           workers := s.workers[w := Popped(s.queue[0])])
    case Popped(r) => s.(holder := None, workers := s.workers[w := Serving(r)])
    case Serving(r) => s.(closed := s.closed + {r}, workers := s.workers[w := Testing])
    case _ => s
  }

  // ----- the invariant

  predicate HoldsLock(x: Worker) { x == Peeking || x == AfterWait || x == Popping || x.Popped? }

  predicate AcceptorHolds(a: Acceptor) { a.Adding? || a == Releasing }

  predicate HoldsRequest(x: Worker, r: nat) { x == Popped(r) || x == Serving(r) }

  /** A request that the acceptor has taken from the socket and not yet queued. */
  function InFlight(a: Acceptor): seq<nat> {
    match a
    case WantsLock(r) => [r]
    case Adding(r) => [r]
    case _ => []
  }

  /** The holder of the mutex, and nobody else, is between lock and unlock. */
  ghost predicate Exclusive(s: State) {
    && (AcceptorHolds(s.acceptor) <==> s.holder == Some(AcceptorThread))
    && (forall w :: 0 <= w < |s.workers| ==> (HoldsLock(s.workers[w]) <==> s.holder == Some(WorkerThread(w))))
    && (s.holder.Some? && s.holder.value.WorkerThread? ==> s.holder.value.w < |s.workers|)
  }

  /** While a request is queued and no broadcast is due, nobody sleeps. */
  ghost predicate NobodyStranded(s: State) {
    s.queue != [] && s.acceptor != Releasing && s.acceptor != Broadcasting ==>
      forall w :: 0 <= w < |s.workers| ==> s.workers[w] != Asleep
  }

  /** Requests leave the queue in the order in which they were accepted; their numbers count them. */
  ghost predicate FirstInFirstOut(s: State) {
    && s.accepted == s.dequeued + s.queue + InFlight(s.acceptor)
    && forall i :: 0 <= i < |s.accepted| ==> s.accepted[i] == i
  }

  ghost predicate OneHolder(ws: seq<Worker>, r: nat) {
    exists w {:trigger ws[w]} :: 0 <= w < |ws| && HoldsRequest(ws[w], r) &&
      forall v {:trigger ws[v]} :: 0 <= v < |ws| && HoldsRequest(ws[v], r) ==> v == w
  }

  ghost predicate NoHolder(ws: seq<Worker>, r: nat) {
    forall v {:trigger ws[v]} :: 0 <= v < |ws| ==> !HoldsRequest(ws[v], r)
  }

  /** A dequeued request is held by exactly one worker until it is closed, and by none afterwards; no other request is
      held or closed. */
  ghost predicate ServedAt(s: State, r: nat) {
    if r < |s.dequeued| then (if r in s.closed then NoHolder(s.workers, r) else OneHolder(s.workers, r))
    else r !in s.closed && NoHolder(s.workers, r)
  }

  ghost predicate ServedOnce(s: State) {
    forall r: nat {:trigger r in s.closed} :: ServedAt(s, r)
  }

  ghost predicate NeverPopsNothing(s: State) {
    forall w :: 0 <= w < |s.workers| && s.workers[w] == Popping ==> s.queue != []
  }

  ghost predicate AliveMeansRunning(s: State) {
    s.keepAlive ==> s.acceptor != AcceptorDone && forall w :: 0 <= w < |s.workers| ==> s.workers[w] != Stopped
  }

  ghost predicate Inv(s: State) {
    && Exclusive(s) && NobodyStranded(s) && FirstInFirstOut(s) && ServedOnce(s)
    && NeverPopsNothing(s) && AliveMeansRunning(s)
  }

  lemma InitInv(workers: nat)
    ensures Inv(Init(workers))
  {
    var s := Init(workers);
    assert s.dequeued + s.queue + InFlight(s.acceptor) == [];
    forall r: nat ensures ServedAt(s, r) { }
  }

  lemma StepKeepsExclusive(s: State, step: Step)
    requires Exclusive(s) && Enabled(s, step)
    ensures Exclusive(Do(s, step))
  {
    hide DoWorker;
    if step.WorkerStep? { WorkerKeepsExclusive(s, step.w); }
  }

  lemma WorkerKeepsExclusive(s: State, w: nat)
    requires Exclusive(s) && Enabled(s, WorkerStep(w))
    ensures Exclusive(DoWorker(s, w))
  {
  }

  lemma StepKeepsStranded(s: State, step: Step)
    requires Inv(s) && Enabled(s, step)
    ensures NobodyStranded(Do(s, step))
  {
    hide ServedOnce, FirstInFirstOut;
  }

  /** The order of `dequeued + queue + in flight` is that of acceptance, whichever part grows or shrinks. */
  lemma StepKeepsOrder(s: State, step: Step)
    requires FirstInFirstOut(s) && Enabled(s, step)
    ensures FirstInFirstOut(Do(s, step))
  {
    hide Woken;
    var t := Do(s, step);
    match step
    case AcceptorStep =>
      if s.acceptor.Adding? {
        assert s.dequeued + (s.queue + [s.acceptor.request]) + [] == s.dequeued + s.queue + [s.acceptor.request];
      }
    case WorkerStep(w) =>
      if s.workers[w] == Popping && s.queue != [] {
        assert s.dequeued + s.queue == s.dequeued + [s.queue[0]] + s.queue[1..];
      }
    case Connect => assert t.accepted == s.dequeued + s.queue + [] + [|s.accepted|];
    case _ =>
  }

  /** Workers that hold the same requests as before. */
  ghost predicate SameHolders(ws: seq<Worker>, ws': seq<Worker>, r: nat) {
    && |ws| == |ws'|
    && forall v {:trigger ws[v]} {:trigger ws'[v]} :: 0 <= v < |ws| ==>
      (HoldsRequest(ws[v], r) <==> HoldsRequest(ws'[v], r))
  }

  lemma HoldersCarryOver(ws: seq<Worker>, ws': seq<Worker>, r: nat)
    requires SameHolders(ws, ws', r)
    ensures NoHolder(ws, r) <==> NoHolder(ws', r)
    ensures OneHolder(ws, r) <==> OneHolder(ws', r)
  {
    hide OneHolder, HoldsRequest;
    if OneHolder(ws, r) { HolderStays(ws, ws', r); }
    if OneHolder(ws', r) { HolderStays(ws', ws, r); }
  }

  lemma HolderStays(ws: seq<Worker>, ws': seq<Worker>, r: nat)
    requires SameHolders(ws, ws', r) && OneHolder(ws, r)
    ensures OneHolder(ws', r)
  {
    hide HoldsRequest;
    var w :| 0 <= w < |ws| && HoldsRequest(ws[w], r) &&
      forall v {:trigger ws[v]} :: 0 <= v < |ws| && HoldsRequest(ws[v], r) ==> v == w;
    assert HoldsRequest(ws'[w], r);
  }

  /** A worker that pops becomes the one holder of the request it pops. */
  lemma PoppedIsServed(s: State, w: nat, r: nat)
    requires w < |s.workers| && s.workers[w] == Popping && s.queue != [] && s.queue[0] == |s.dequeued|
    requires ServedAt(s, r)
    ensures ServedAt(DoWorker(s, w), r)
  {
    hide NoHolder, OneHolder;
    var t := DoWorker(s, w);
    if r == s.queue[0] {
      BecomesHolder(s.workers, w, r);
    } else {
      HoldersCarryOver(s.workers, t.workers, r);
    }
  }

  lemma BecomesHolder(ws: seq<Worker>, w: nat, r: nat)
    requires w < |ws| && NoHolder(ws, r)
    ensures OneHolder(ws[w := Popped(r)], r)
  {
    var ws' := ws[w := Popped(r)];
    assert HoldsRequest(ws'[w], r);
    assert forall v {:trigger ws'[v]} :: 0 <= v < |ws'| && v != w ==> ws'[v] == ws[v];
  }

  /** A worker that closes its request was its one holder. */
  lemma ClosedIsServed(s: State, w: nat, r: nat)
    requires w < |s.workers| && s.workers[w].Serving?
    requires ServedAt(s, r)
    ensures ServedAt(DoWorker(s, w), r)
  {
    var t := DoWorker(s, w);
    if r == s.workers[w].request {
      assert HoldsRequest(s.workers[w], r);
      forall v | 0 <= v < |t.workers| ensures !HoldsRequest(t.workers[v], r) {
        if v != w { assert t.workers[v] == s.workers[v]; }
      }
    } else {
      HoldersCarryOver(s.workers, t.workers, r);
    }
  }

  /** The other steps neither take up nor close a request. */
  lemma OthersHoldAsBefore(s: State, step: Step, r: nat)
    requires Enabled(s, step)
    requires step.WorkerStep? ==> s.workers[step.w] != Popping && !s.workers[step.w].Serving?
    ensures SameHolders(s.workers, Do(s, step).workers, r)
    ensures Do(s, step).dequeued == s.dequeued && Do(s, step).closed == s.closed
  {
  }

  lemma NextIsQueued(s: State)
    requires FirstInFirstOut(s) && s.queue != []
    ensures s.queue[0] == |s.dequeued|
  {
    assert s.accepted[|s.dequeued|] == s.queue[0];
  }

  lemma StepKeepsServed(s: State, step: Step)
    requires Inv(s) && Enabled(s, step)
    ensures ServedOnce(Do(s, step))
  {
    hide DoWorker, DoAcceptor, Exclusive, NobodyStranded, FirstInFirstOut, NoHolder, OneHolder;
    var t := Do(s, step);
    forall r: nat ensures ServedAt(t, r) {
      ServedNow(s, r);
      if step.WorkerStep? && s.workers[step.w] == Popping {
        NextIsQueued(s);
        PoppedIsServed(s, step.w, r);
      } else if step.WorkerStep? && s.workers[step.w].Serving? {
        ClosedIsServed(s, step.w, r);
      } else {
        OthersHoldAsBefore(s, step, r);
        HoldersCarryOver(s.workers, t.workers, r);
      }
    }
    assert forall r: nat {:trigger r in t.closed} :: ServedAt(t, r);
  }

  lemma ServedNow(s: State, r: nat)
    requires ServedOnce(s)
    ensures ServedAt(s, r)
  {
    assert r in s.closed || r !in s.closed;
  }

  /** A worker between peek and pop holds the mutex, so nobody empties the queue under it. */
  lemma StepKeepsPops(s: State, step: Step)
    requires Exclusive(s) && NeverPopsNothing(s) && Enabled(s, step)
    ensures NeverPopsNothing(Do(s, step))
  {
    if step.WorkerStep? && s.workers[step.w] == Popping {
      forall v: nat | v < |s.workers| ensures s.workers[v] == Popping ==> v == step.w {
        OneInside(s, step.w, v);
      }
    }
  }

  lemma OneInside(s: State, v: nat, w: nat)
    requires Exclusive(s) && v < |s.workers| && w < |s.workers| && HoldsLock(s.workers[v])
    ensures HoldsLock(s.workers[w]) ==> v == w
    ensures !AcceptorHolds(s.acceptor)
  {
  }

  lemma StepKeepsRunning(s: State, step: Step)
    requires AliveMeansRunning(s) && Enabled(s, step)
    ensures AliveMeansRunning(Do(s, step))
  {
  }

  /** Every step keeps the invariant. */
  lemma StepKeepsInv(s: State, step: Step)
    requires Inv(s) && Enabled(s, step)
    ensures Inv(Do(s, step))
  {
    hide Do, Exclusive, NobodyStranded, FirstInFirstOut, ServedOnce, NeverPopsNothing, AliveMeansRunning;
    StepKeepsExclusive(s, step);
    StepKeepsStranded(s, step);
    StepKeepsOrder(s, step);
    StepKeepsServed(s, step);
    StepKeepsPops(s, step);
    StepKeepsRunning(s, step);
  }

  // ----- runs

  /** Whether every step of a run is enabled when its turn comes, and where the run ends. */
  ghost predicate Runs(s: State, steps: seq<Step>, t: State)
    decreases |steps|
  {
    if steps == [] then t == s
    else Enabled(s, steps[0]) && Runs(Do(s, steps[0]), steps[1..], t)
  }

  /** In every reachable state: mutual exclusion, nobody stranded, first in first out, every request served once. */
  lemma {:induction false} ReachableInv(s: State, steps: seq<Step>, t: State)
    requires Inv(s) && Runs(s, steps, t)
    ensures Inv(t)
    decreases |steps|
  {
    hide Inv, Do, Enabled;
    if steps != [] {
      StepKeepsInv(s, steps[0]);
      ReachableInv(Do(s, steps[0]), steps[1..], t);
    }
  }

  /** Whatever a started server does, with any number of workers, every state it reaches is safe. */
  lemma ServerIsSafe(workers: nat, steps: seq<Step>, t: State)
    requires Runs(Init(workers), steps, t)
    ensures Inv(t)
  {
    InitInv(workers);
    ReachableInv(Init(workers), steps, t);
  }

  /** No two threads of a started server are ever between lock and unlock. */
  lemma MutualExclusion(workers: nat, steps: seq<Step>, t: State, v: nat, w: nat)
    requires Runs(Init(workers), steps, t)
    requires v < |t.workers| && w < |t.workers| && HoldsLock(t.workers[v])
    ensures HoldsLock(t.workers[w]) ==> v == w
    ensures !AcceptorHolds(t.acceptor)
  {
    ServerIsSafe(workers, steps, t);
    OneInside(t, v, w);
  }

  // ----- progress

  /** Steps of the server's own threads, as opposed to new connections, spurious wakeups and the stop. */
  predicate Internal(step: Step) { step == AcceptorStep || step.WorkerStep? }

  /** How far a worker is from sleeping on an empty queue. */
  function Rank(x: Worker): nat {
    match x
    case Popped(_) => 8
    case Serving(_) => 7
    case Waking => 6
    case AfterWait => 5
    case Testing => 4
    case Locking => 3
    case Peeking => 2
    case Popping => 1
    case _ => 0
  }

  function RankSum(ws: seq<Worker>): nat {
    if ws == [] then 0 else RankSum(ws[..|ws| - 1]) + Rank(ws[|ws| - 1])
  }

  function AcceptorRank(a: Acceptor): nat {
    match a
    case WantsLock(_) => 5
    case Adding(_) => 4
    case Releasing => 3
    case Broadcasting => 2
    case AtLoopTest => 1
    case _ => 0
  }

  predicate BroadcastDue(a: Acceptor) { a.WantsLock? || a.Adding? || a == Releasing || a == Broadcasting }

  /** The work left: requests to pop, a broadcast to make, and the way of every thread to its resting place. */
  function Work(s: State): nat {
    8 * (|s.queue| + |InFlight(s.acceptor)|) + (if BroadcastDue(s.acceptor) then 6 * |s.workers| + 2 else 0)
    + RankSum(s.workers) + AcceptorRank(s.acceptor)
  }

  lemma {:induction false} RankSumUpdate(ws: seq<Worker>, w: nat, x: Worker)
    requires w < |ws|
    ensures RankSum(ws[w := x]) + Rank(ws[w]) == RankSum(ws) + Rank(x)
  {
    hide Rank;
    var init := ws[..|ws| - 1];
    if w < |ws| - 1 {
      RankSumUpdate(init, w, x);
      assert ws[w := x][..|ws| - 1] == init[w := x];
    } else {
      assert ws[w := x][..|ws| - 1] == init;
    }
  }

  lemma {:induction false} RankSumWoken(ws: seq<Worker>)
    ensures RankSum(Woken(ws)) <= RankSum(ws) + 6 * |ws|
  {
    if ws != [] {
      RankSumWoken(ws[..|ws| - 1]);
      assert Woken(ws)[..|ws| - 1] == Woken(ws[..|ws| - 1]);
    }
  }

  lemma WorkerDoesWork(s: State, w: nat)
    requires NeverPopsNothing(s) && Enabled(s, WorkerStep(w))
    ensures Work(DoWorker(s, w)) < Work(s)
  {
    hide RankSum;
    RankSumUpdate(s.workers, w, DoWorker(s, w).workers[w]);
  }

  lemma AcceptorDoesWork(s: State)
    requires Enabled(s, AcceptorStep)
    ensures Work(DoAcceptor(s)) < Work(s)
  {
    hide RankSum;
    RankSumWoken(s.workers);
  }

  /** Every step of the server's threads gets work done. */
  lemma StepDoesWork(s: State, step: Step)
    requires Inv(s) && Enabled(s, step) && Internal(step)
    ensures Work(Do(s, step)) < Work(s)
  {
    hide Exclusive, NobodyStranded, FirstInFirstOut, ServedOnce, Work, DoWorker, DoAcceptor;
    match step
    case WorkerStep(w) => WorkerDoesWork(s, w);
    case AcceptorStep => AcceptorDoesWork(s);
  }

  lemma InternalKeepsAlive(s: State, step: Step)
    requires Enabled(s, step) && Internal(step)
    ensures Do(s, step).keepAlive == s.keepAlive && |Do(s, step).workers| == |s.workers| &&
      Do(s, step).accepted == s.accepted
  {
  }

  /** Without new connections, spurious wakeups and a stop, no run is longer than the work left. */
  lemma {:induction false} RunsAreShort(s: State, steps: seq<Step>, t: State)
    requires Inv(s) && Runs(s, steps, t) && forall i :: 0 <= i < |steps| ==> Internal(steps[i])
    ensures |steps| + Work(t) <= Work(s) && t.keepAlive == s.keepAlive && |t.workers| == |s.workers|
    decreases |steps|
  {
    hide Inv, Work, Enabled, Do;
    if steps != [] {
      StepKeepsInv(s, steps[0]);
      StepDoesWork(s, steps[0]);
      InternalKeepsAlive(s, steps[0]);
      RunsAreShort(Do(s, steps[0]), steps[1..], t);
    }
  }

  ghost predicate Quiet(s: State) { forall step: Step :: Internal(step) ==> !Enabled(s, step) }

  /** Every accepted request has been dequeued, served and closed, and all workers sleep. */
  ghost predicate Drained(s: State) {
    && s.queue == [] && s.dequeued == s.accepted
    && (forall r: nat :: r < |s.accepted| ==> r in s.closed)
    && (forall w :: 0 <= w < |s.workers| ==> s.workers[w] == Asleep)
  }

  /** Where the server's threads can go no further, nothing is left to do: there is no deadlock. */
  lemma QuietMeansDrained(s: State)
    requires Inv(s) && s.keepAlive && s.workers != [] && Quiet(s)
    ensures Drained(s)
  {
    NothingHeld(s);
    hide Exclusive;
    forall w | 0 <= w < |s.workers| ensures s.workers[w] == Asleep {
      assert Internal(WorkerStep(w));
    }
    assert Internal(AcceptorStep);
    assert s.workers[0] == Asleep;
    assert s.dequeued + s.queue + [] == s.dequeued;
    forall r: nat | r < |s.accepted| ensures r in s.closed {
      AsleepHoldsNothing(s, r);
    }
  }

  lemma AsleepHoldsNothing(s: State, r: nat)
    requires ServedOnce(s) && r < |s.dequeued| && forall w :: 0 <= w < |s.workers| ==> s.workers[w] == Asleep
    ensures r in s.closed
  {
    assert r in s.closed || OneHolder(s.workers, r);
  }

  lemma NothingHeld(s: State)
    requires Exclusive(s) && Quiet(s)
    ensures s.holder == None
  {
    if s.holder == Some(AcceptorThread) {
      assert Internal(AcceptorStep) && Enabled(s, AcceptorStep);
    } else if s.holder.Some? {
      var w := s.holder.value.w;
      assert HoldsLock(s.workers[w]);
      assert Internal(WorkerStep(w)) && Enabled(s, WorkerStep(w));
    }
  }

  lemma SomeStep(s: State) returns (step: Step)
    requires !Quiet(s)
    ensures Internal(step) && Enabled(s, step)
  {
    step :| Internal(step) && Enabled(s, step);
  }

  /** From every reachable state the server's own threads can bring every accepted request to its end; whatever
      the schedule, they do so within the work left. */
  lemma {:induction false} Drain(s: State) returns (steps: seq<Step>, t: State)
    requires Inv(s) && s.keepAlive && s.workers != []
    ensures (forall i :: 0 <= i < |steps| ==> Internal(steps[i])) && Runs(s, steps, t)
    ensures Drained(t) && t.accepted == s.accepted
    decreases Work(s)
  {
    hide Inv, Work, Enabled, Do, Drained, Quiet;
    if Quiet(s) {
      steps, t := [], s;
      QuietMeansDrained(s);
    } else {
      var step := SomeStep(s);
      StepKeepsInv(s, step);
      StepDoesWork(s, step);
      InternalKeepsAlive(s, step);
      var rest;
      rest, t := Drain(Do(s, step));
      steps := [step] + rest;
      assert steps[1..] == rest;
    }
  }

  lemma {:induction false} WorkersStay(s: State, steps: seq<Step>, t: State)
    requires Runs(s, steps, t)
    ensures |t.workers| == |s.workers|
    decreases |steps|
  {
    if steps != [] { WorkersStay(Do(s, steps[0]), steps[1..], t); }
  }

  /** A started server with at least one worker that is still alive can bring every accepted request to its end. */
  lemma ServerCanDrain(workers: nat, steps: seq<Step>, t: State) returns (rest: seq<Step>, end: State)
    requires workers > 0 && Runs(Init(workers), steps, t) && t.keepAlive
    ensures (forall i :: 0 <= i < |rest| ==> Internal(rest[i])) && Runs(t, rest, end)
    ensures Drained(end) && end.accepted == t.accepted
  {
    ServerIsSafe(workers, steps, t);
    WorkersStay(Init(workers), steps, t);
    rest, end := Drain(t);
  }

  lemma {:induction false} InternalAcceptsNothing(s: State, steps: seq<Step>, t: State)
    requires Runs(s, steps, t) && forall i :: 0 <= i < |steps| ==> Internal(steps[i])
    ensures t.accepted == s.accepted
    decreases |steps|
  {
    hide Do, Enabled;
    if steps != [] {
      InternalKeepsAlive(s, steps[0]);
      InternalAcceptsNothing(Do(s, steps[0]), steps[1..], t);
    }
  }

  /** And whatever the schedule, it does: from every state that it reaches while it is alive, each run of its own
      threads is at most as long as the work left, and where such a run can go no further, every accepted request has
      been served. */
  lemma EveryScheduleDrains(workers: nat, steps: seq<Step>, s: State, rest: seq<Step>, t: State)
    requires workers > 0 && Runs(Init(workers), steps, s) && s.keepAlive
    requires Runs(s, rest, t) && forall i :: 0 <= i < |rest| ==> Internal(rest[i])
    ensures |rest| <= Work(s)
    ensures Quiet(t) ==> Drained(t) && t.accepted == s.accepted
  {
    hide Inv, Work, Enabled, Do, Drained, Quiet;
    ServerIsSafe(workers, steps, s);
    WorkersStay(Init(workers), steps, s);
    RunsAreShort(s, rest, t);
    ReachableInv(s, rest, t);
    InternalAcceptsNothing(s, rest, t);
    if Quiet(t) { QuietMeansDrained(t); }
  }

  // ----- after a stop

  /** A worker that waits on the condition leaves it for the mutex, and goes on only as its holder. */
  lemma SleeperTakesMutex(s: State, step: Step, w: nat)
    requires Enabled(s, step) && w < |s.workers|
    ensures var t := Do(s, step);
      && |t.workers| == |s.workers|
      && (s.workers[w] == Asleep ==> t.workers[w] == Asleep || t.workers[w] == Waking)
      && (s.workers[w] == Waking && t.workers[w] != Waking ==>
        s.holder == None && t.holder == Some(WorkerThread(w)) && HoldsLock(t.workers[w]))
  {
    hide Woken;
  }

  /** A thread that tests keep_alive after a stop ends: a worker takes no further round, the acceptor accepts no further
      connection. */
  lemma StopEndsLoops(s: State)
    requires !s.keepAlive
    ensures forall w :: 0 <= w < |s.workers| && s.workers[w] == Testing ==>
      Do(s, WorkerStep(w)) == s.(workers := s.workers[w := Stopped])
    ensures s.acceptor == AtLoopTest ==> Do(s, AcceptorStep) == s.(acceptor := AcceptorDone)
    ensures s.acceptor == Accepting ==>
      Do(Do(s, ConnectFails), AcceptorStep) == s.(acceptor := AcceptorDone)
  {
  }

  /** In a round that may still take a request. */
  function MayPop(x: Worker): nat { if x == Locking || x == Peeking || x == Popping then 1 else 0 }

  function PopsLeft(ws: seq<Worker>): nat {
    if ws == [] then 0 else PopsLeft(ws[..|ws| - 1]) + MayPop(ws[|ws| - 1])
  }

  lemma {:induction false} PopsLeftUpdate(ws: seq<Worker>, w: nat, x: Worker)
    requires w < |ws|
    ensures PopsLeft(ws[w := x]) + MayPop(ws[w]) == PopsLeft(ws) + MayPop(x)
  {
    hide MayPop;
    var init := ws[..|ws| - 1];
    if w < |ws| - 1 {
      PopsLeftUpdate(init, w, x);
      assert ws[w := x][..|ws| - 1] == init[w := x];
    } else {
      assert ws[w := x][..|ws| - 1] == init;
    }
  }

  lemma {:induction false} PopsLeftWoken(ws: seq<Worker>)
    ensures PopsLeft(Woken(ws)) == PopsLeft(ws)
  {
    if ws != [] {
      PopsLeftWoken(ws[..|ws| - 1]);
      assert Woken(ws)[..|ws| - 1] == Woken(ws[..|ws| - 1]);
    }
  }

  lemma StopIsFinal(s: State, step: Step)
    requires !s.keepAlive && Enabled(s, step)
    ensures var t := Do(s, step);
      && !t.keepAlive
      && |t.dequeued| + PopsLeft(t.workers) <= |s.dequeued| + PopsLeft(s.workers)
      && |t.accepted| + (if t.acceptor == Accepting then 1 else 0) <=
        |s.accepted| + (if s.acceptor == Accepting then 1 else 0)
  {
    hide PopsLeft, Woken;
    match step
    case WorkerStep(w) => PopsLeftUpdate(s.workers, w, DoWorker(s, w).workers[w]);
    case Spurious(w) => PopsLeftUpdate(s.workers, w, Waking);
    case AcceptorStep => PopsLeftWoken(s.workers);
    case _ =>
  }

  /** Whatever happens after a stop: each worker takes at most one more request, and only if it was past its loop test
      already, and at most the one connection is accepted that the acceptor was waiting for. */
  lemma {:induction false} NoRoundAfterStop(s: State, steps: seq<Step>, t: State)
    requires !s.keepAlive && Runs(s, steps, t)
    ensures !t.keepAlive
    ensures |t.dequeued| + PopsLeft(t.workers) <= |s.dequeued| + PopsLeft(s.workers)
    ensures |t.accepted| <= |s.accepted| + if s.acceptor == Accepting then 1 else 0
    ensures |t.accepted| + (if t.acceptor == Accepting then 1 else 0) <=
      |s.accepted| + (if s.acceptor == Accepting then 1 else 0)
    decreases |steps|
  {
    hide Do, Enabled, PopsLeft;
    if steps != [] {
      StopIsFinal(s, steps[0]);
      NoRoundAfterStop(Do(s, steps[0]), steps[1..], t);
    }
  }
}
