/** The worker pool as a state machine over its channels, the scheduler's hand and the workers' hands. */
module Pool {
  import opened Graphs
  import opened Requests

  const CAPACITY := 1024
  const WORKERS := 2

  datatype Hand = Empty | Unchecked(request: Request) | Dispatching(request: Request)

  datatype Worker = Idle | Processing(request: Request) | Rescheduling(request: Request)

  /** `added`, `done`, `dropped` and `processed` record what has happened; the rest is the pool itself. */
  datatype State = State(
    feedback: seq<Request>,
    hand: Hand,
    queue: seq<Request>,
    workers: seq<Worker>,
    cancelled: set<Id>,
    added: multiset<Request>,
    done: multiset<Request>,
    dropped: multiset<Request>,
    processed: seq<Request>)

  const Initial := State([], Empty, [], [Idle, Idle], {}, multiset{}, multiset{}, multiset{}, [])

  datatype Step =
    | Add(r: Request)                     // a producer sends to feedback
    | Cancel(ids: set<Id>)                // a deployment's ids are marked
    | Take                                // the scheduler receives from feedback
    | Check                               // the scheduler looks the request up among the cancelled
    | Dispatch                            // the scheduler sends to the queue
    | Receive(w: nat)                     // a worker receives from the queue
    | Process(w: nat, ok: bool)           // a worker processes what it holds
    | Resend(w: nat)                      // a worker sends what failed back to feedback

  /** Sends wait for room, receives for an element. */
  predicate Enabled(s: State, step: Step) {
    match step
    case Add(_) => |s.feedback| < CAPACITY
    case Cancel(_) => true
    case Take => s.hand.Empty? && s.feedback != []
    case Check => s.hand.Unchecked?
    case Dispatch => s.hand.Dispatching? && |s.queue| < CAPACITY
    case Receive(w) => w < |s.workers| && s.workers[w].Idle? && s.queue != []
    case Process(w, _) => w < |s.workers| && s.workers[w].Processing?
    case Resend(w) => w < |s.workers| && s.workers[w].Rescheduling? && |s.feedback| < CAPACITY
  }

  function Apply(s: State, step: Step): State
    requires Enabled(s, step)
  {
    match step
    case Add(r) => s.(feedback := s.feedback + [r], added := s.added + multiset{r})
    case Cancel(ids) => s.(cancelled := s.cancelled + ids)
    case Take => s.(feedback := s.feedback[1..], hand := Unchecked(s.feedback[0]))
    case Check =>
      var r := s.hand.request;
      if r.id in s.cancelled then s.(hand := Empty, dropped := s.dropped + multiset{r})
      else s.(hand := Dispatching(r))
    case Dispatch => s.(hand := Empty, queue := s.queue + [s.hand.request])
    case Receive(w) => s.(queue := s.queue[1..], workers := s.workers[w := Processing(s.queue[0])])
    case Process(w, ok) =>
      var r := s.workers[w].request;
      if ok then s.(workers := s.workers[w := Idle], done := s.done + multiset{r}, processed := s.processed + [r])
      else s.(workers := s.workers[w := Rescheduling(r)], processed := s.processed + [r])
    case Resend(w) => s.(feedback := s.feedback + [s.workers[w].request], workers := s.workers[w := Idle])
  }

  // ---- Runs ----

  predicate CanRun(s: State, steps: seq<Step>)
    decreases |steps|
  {
    steps == [] || (Enabled(s, steps[0]) && CanRun(Apply(s, steps[0]), steps[1..]))
  }

  function Run(s: State, steps: seq<Step>): State
    requires CanRun(s, steps)
    decreases |steps|
  {
    if steps == [] then s else Run(Apply(s, steps[0]), steps[1..])
  }

  ghost predicate Reachable(s: State) {
    exists steps :: CanRun(Initial, steps) && Run(Initial, steps) == s
  }

  lemma {:induction false} RunMore(s: State, steps: seq<Step>, step: Step)
    requires CanRun(s, steps) && Enabled(Run(s, steps), step)
    ensures CanRun(s, steps + [step]) && Run(s, steps + [step]) == Apply(Run(s, steps), step)
    decreases |steps|
  {
    if steps == [] {
      assert steps + [step] == [step] && [step][1..] == [];
    } else {
      RunMore(Apply(s, steps[0]), steps[1..], step);
      assert (steps + [step])[1..] == steps[1..] + [step];
    }
  }

  lemma {:induction false} ReachableNext(s: State, step: Step)
    requires Reachable(s) && Enabled(s, step)
    ensures Reachable(Apply(s, step))
  {
    var steps :| CanRun(Initial, steps) && Run(Initial, steps) == s;
    RunMore(Initial, steps, step);
  }

  // ---- Nothing is lost and nothing duplicated ----

  function HandHolds(h: Hand): multiset<Request> {
    if h.Empty? then multiset{} else multiset{h.request}
  }

  function WorkerHolds(w: Worker): multiset<Request> {
    if w.Idle? then multiset{} else multiset{w.request}
  }

  function WorkersHold(ws: seq<Worker>): multiset<Request> {
    if ws == [] then multiset{} else WorkerHolds(ws[0]) + WorkersHold(ws[1..])
  }

  /** Everything in some place of the pool, finished or dropped. */
  function Held(s: State): multiset<Request> {
    multiset(s.feedback) + HandHolds(s.hand) + multiset(s.queue) + WorkersHold(s.workers) + s.done + s.dropped
  }

  lemma {:induction false} WorkerChanged(ws: seq<Worker>, w: nat, worker: Worker, r: Request)
    requires w < |ws|
    ensures WorkersHold(ws[w := worker])[r] + WorkerHolds(ws[w])[r] == WorkersHold(ws)[r] + WorkerHolds(worker)[r]
  {
    if w > 0 {
      WorkerChanged(ws[1..], w - 1, worker, r);
      assert ws[w := worker][1..] == ws[1..][w - 1 := worker];
    } else {
      assert ws[w := worker][1..] == ws[1..];
    }
  }

  /** How many copies of a request there are in all places together. */
  function Copied(s: State, r: Request): nat {
    multiset(s.feedback)[r] + HandHolds(s.hand)[r] + multiset(s.queue)[r] + WorkersHold(s.workers)[r]
    + s.done[r] + s.dropped[r]
  }

  function One(r: Request, x: Request): nat {
    if r == x then 1 else 0
  }

  lemma {:induction false} Sent(rs: seq<Request>, x: Request, r: Request)
    ensures multiset(rs + [x])[r] == multiset(rs)[r] + One(r, x)
  { }

  lemma {:induction false} Received(rs: seq<Request>, r: Request)
    requires rs != []
    ensures multiset(rs)[r] == multiset(rs[1..])[r] + One(r, rs[0])
  {
    assert rs == [rs[0]] + rs[1..];
  }

  ghost predicate Conserves(s: State, s': State, r: Request) {
    Copied(s', r) + s.added[r] == Copied(s, r) + s'.added[r]
  }

  lemma {:induction false} AddConserves(s: State, x: Request, r: Request)
    requires Enabled(s, Add(x))
    ensures Conserves(s, Apply(s, Add(x)), r)
  {
    Sent(s.feedback, x, r);
  }

  lemma {:induction false} TakeConserves(s: State, r: Request)
    requires Enabled(s, Take)
    ensures Conserves(s, Apply(s, Take), r)
  {
    Received(s.feedback, r);
  }

  lemma {:induction false} CheckConserves(s: State, r: Request)
    requires Enabled(s, Check)
    ensures Conserves(s, Apply(s, Check), r)
  {
    var x, s' := s.hand.request, Apply(s, Check);
    assert HandHolds(s.hand)[r] == One(r, x);
    assert s'.dropped[r] + HandHolds(s'.hand)[r] == s.dropped[r] + One(r, x);
  }

  lemma {:induction false} DispatchConserves(s: State, r: Request)
    requires Enabled(s, Dispatch)
    ensures Conserves(s, Apply(s, Dispatch), r)
  {
    Sent(s.queue, s.hand.request, r);
  }

  lemma {:induction false} ReceiveConserves(s: State, w: nat, r: Request)
    requires Enabled(s, Receive(w))
    ensures Conserves(s, Apply(s, Receive(w)), r)
  {
    Received(s.queue, r);
    WorkerChanged(s.workers, w, Processing(s.queue[0]), r);
  }

  lemma {:induction false} ProcessConserves(s: State, w: nat, ok: bool, r: Request)
    requires Enabled(s, Process(w, ok))
    ensures Conserves(s, Apply(s, Process(w, ok)), r)
  {
    WorkerChanged(s.workers, w, if ok then Idle else Rescheduling(s.workers[w].request), r);
  }

  lemma {:induction false} ResendConserves(s: State, w: nat, r: Request)
    requires Enabled(s, Resend(w))
    ensures Conserves(s, Apply(s, Resend(w)), r)
  {
    Sent(s.feedback, s.workers[w].request, r);
    WorkerChanged(s.workers, w, Idle, r);
  }

  lemma {:induction false} StepConserves(s: State, step: Step, r: Request)
    requires Enabled(s, step)
    ensures Conserves(s, Apply(s, step), r)
  {
    match step
    case Add(x) => AddConserves(s, x, r);
    case Cancel(_) =>
    case Take => TakeConserves(s, r);
    case Check => CheckConserves(s, r);
    case Dispatch => DispatchConserves(s, r);
    case Receive(w) => ReceiveConserves(s, w, r);
    case Process(w, ok) => ProcessConserves(s, w, ok, r);
    case Resend(w) => ResendConserves(s, w, r);
  }

  /** No run changes how many copies of a request there are beyond those it adds. */
  lemma {:induction false} RunConserves(s: State, steps: seq<Step>, r: Request)
    requires CanRun(s, steps)
    ensures Conserves(s, Run(s, steps), r)
    decreases |steps|
  {
    if steps != [] {
      StepConserves(s, steps[0], r);
      RunConserves(Apply(s, steps[0]), steps[1..], r);
    }
  }

  /** In every reachable state each added request is in exactly one place. */
  lemma {:induction false} EveryRequestInOnePlace(s: State)
    requires Reachable(s)
    ensures s.added == Held(s)
  {
    var steps :| CanRun(Initial, steps) && Run(Initial, steps) == s;
    assert [Idle, Idle][1..] == [Idle] && [Idle][1..] == [];
    assert WorkersHold([Idle]) == multiset{} && WorkersHold([Idle, Idle]) == multiset{};
    forall r ensures s.added[r] == Held(s)[r] {
      RunConserves(Initial, steps, r);
    }
  }

  // ---- What happens to a request, step by step ----

  /** What is sent to feedback in a run: additions, and what failed. */
  function SentBack(s: State, steps: seq<Step>): seq<Request>
    requires CanRun(s, steps)
    decreases |steps|
  {
    if steps == [] then []
    else
      (match steps[0]
       case Add(r) => [r]
       case Resend(w) => [s.workers[w].request]
       case _ => []) + SentBack(Apply(s, steps[0]), steps[1..])
  }

  function Takes(steps: seq<Step>): nat {
    if steps == [] then 0 else (if steps[0].Take? then 1 else 0) + Takes(steps[1..])
  }

  /** The feedback channel hands requests on in the order they were sent. */
  lemma {:induction false} FeedbackInOrder(s: State, steps: seq<Step>)
    requires CanRun(s, steps)
    ensures Takes(steps) <= |s.feedback + SentBack(s, steps)|
    ensures Run(s, steps).feedback == (s.feedback + SentBack(s, steps))[Takes(steps)..]
    decreases |steps|
  {
    if steps != [] {
      FeedbackInOrder(Apply(s, steps[0]), steps[1..]);
      ChannelStep(s.feedback, Apply(s, steps[0]).feedback, SentBack(s, steps), SentBack(Apply(s, steps[0]), steps[1..]),
                  steps[0].Take?, Takes(steps[1..]));
    }
  }

  /** A channel after one receive, one send or neither. */
  lemma {:induction false} ChannelStep(before: seq<Request>, after: seq<Request>, sent: seq<Request>, rest: seq<Request>,
                                       received: bool, n: nat)
    requires if received then before != [] && after == before[1..] && sent == rest else after + rest == before + sent
    requires n <= |after + rest|
    ensures (after + rest)[n..] == (before + sent)[n + (if received then 1 else 0)..]
  {
    if received {
      assert before + sent == [before[0]] + (after + rest);
    }
  }

  /** What the scheduler passes on to the workers in a run. */
  function Dispatched(s: State, steps: seq<Step>): seq<Request>
    requires CanRun(s, steps)
    decreases |steps|
  {
    if steps == [] then []
    else (if steps[0].Dispatch? then [s.hand.request] else []) + Dispatched(Apply(s, steps[0]), steps[1..])
  }

  function Receives(steps: seq<Step>): nat {
    if steps == [] then 0 else (if steps[0].Receive? then 1 else 0) + Receives(steps[1..])
  }

  /** So does the queue. */
  lemma {:induction false} QueueInOrder(s: State, steps: seq<Step>)
    requires CanRun(s, steps)
    ensures Receives(steps) <= |s.queue + Dispatched(s, steps)|
    ensures Run(s, steps).queue == (s.queue + Dispatched(s, steps))[Receives(steps)..]
    decreases |steps|
  {
    if steps != [] {
      QueueInOrder(Apply(s, steps[0]), steps[1..]);
      ChannelStep(s.queue, Apply(s, steps[0]).queue, Dispatched(s, steps), Dispatched(Apply(s, steps[0]), steps[1..]),
                  steps[0].Receive?, Receives(steps[1..]));
    }
  }

  /** The requests processed in a run, or only those that succeeded. */
  function Attempts(s: State, steps: seq<Step>, all: bool): seq<Request>
    requires CanRun(s, steps)
    decreases |steps|
  {
    if steps == [] then []
    else
      (match steps[0]
       case Process(w, ok) => if all || ok then [s.workers[w].request] else []
       case _ => []) + Attempts(Apply(s, steps[0]), steps[1..], all)
  }

  /** A request is done exactly as often as processing it has succeeded; one that failed is still in the pool. */
  lemma {:induction false} DoneIffSucceeded(s: State, steps: seq<Step>, r: Request)
    requires CanRun(s, steps)
    ensures Run(s, steps).done[r] == s.done[r] + multiset(Attempts(s, steps, false))[r]
    decreases |steps|
  {
    if steps != [] {
      var s', rest := Apply(s, steps[0]), steps[1..];
      DoneIffSucceeded(s', rest, r);
      if steps[0].Process? && steps[0].ok {
        var x := s.workers[steps[0].w].request;
        assert Attempts(s, steps, false) == [x] + Attempts(s', rest, false);
        FirstCounted(x, Attempts(s', rest, false), r);
      } else {
        assert Attempts(s, steps, false) == Attempts(s', rest, false);
      }
    }
  }

  lemma {:induction false} FirstCounted(x: Request, rest: seq<Request>, r: Request)
    ensures multiset([x] + rest)[r] == One(r, x) + multiset(rest)[r]
  { }

  /** Every attempt is recorded, in order. */
  lemma {:induction false} AttemptsRecorded(s: State, steps: seq<Step>)
    requires CanRun(s, steps)
    ensures Run(s, steps).processed == s.processed + Attempts(s, steps, true)
    decreases |steps|
  {
    if steps != [] {
      var s', rest := Apply(s, steps[0]), steps[1..];
      AttemptsRecorded(s', rest);
      if steps[0].Process? {
        var x := s.workers[steps[0].w].request;
        assert Attempts(s, steps, true) == [x] + Attempts(s', rest, true);
        assert s.processed + [x] + Attempts(s', rest, true) == s.processed + ([x] + Attempts(s', rest, true));
      } else {
        assert Attempts(s, steps, true) == Attempts(s', rest, true);
      }
    }
  }

  /** Only what was cancelled is dropped. */
  lemma {:induction false} DroppedAreCancelled(s: State, steps: seq<Step>)
    requires CanRun(s, steps) && forall r :: r in s.dropped ==> r.id in s.cancelled
    ensures forall r :: r in Run(s, steps).dropped ==> r.id in Run(s, steps).cancelled
    decreases |steps|
  {
    if steps != [] {
      DroppedAreCancelled(Apply(s, steps[0]), steps[1..]);
    }
  }

  // ---- Blocking ----

  function Busy(ws: seq<Worker>): nat {
    if ws == [] then 0 else (if ws[0].Idle? then 0 else 1) + Busy(ws[1..])
  }

  /** Requests added and neither finished nor dropped. */
  function Outstanding(s: State): nat {
    |s.feedback| + (if s.hand.Empty? then 0 else 1) + |s.queue| + Busy(s.workers)
  }

  lemma {:induction false} BusyAt(ws: seq<Worker>, w: nat)
    requires w < |ws| && !ws[w].Idle?
    ensures Busy(ws) >= 1
  {
    if w > 0 { BusyAt(ws[1..], w - 1); }
  }

  /** With at most a channel's capacity outstanding, whoever is about to send can do so at once. */
  lemma {:induction false} NoSendBlocks(s: State)
    requires Outstanding(s) <= 1024
    ensures s.hand.Dispatching? ==> Enabled(s, Dispatch)
    ensures forall w :: 0 <= w < |s.workers| && s.workers[w].Rescheduling? ==> Enabled(s, Resend(w))
    ensures forall r :: Outstanding(s) < 1024 ==> Enabled(s, Add(r))
  {
    forall w | 0 <= w < |s.workers| && s.workers[w].Rescheduling? ensures Enabled(s, Resend(w)) {
      BusyAt(s.workers, w);
    }
  }

  predicate Internal(step: Step) {
    !step.Add? && !step.Cancel?
  }

  /** Work is outstanding and neither the scheduler nor any worker can move. */
  ghost predicate Stuck(s: State) {
    Outstanding(s) > 0 && forall step :: Internal(step) ==> !Enabled(s, step)
  }

  ghost predicate Bounded(s: State) {
    |s.feedback| <= CAPACITY && |s.queue| <= CAPACITY && |s.workers| == WORKERS
  }

  lemma {:induction false} RunBounded(s: State, steps: seq<Step>)
    requires CanRun(s, steps) && Bounded(s)
    ensures Bounded(Run(s, steps))
    decreases |steps|
  {
    if steps != [] { RunBounded(Apply(s, steps[0]), steps[1..]); }
  }

  lemma {:induction false} TwoBusy(ws: seq<Worker>)
    requires |ws| == 2
    ensures Busy(ws) == (if ws[0].Idle? then 0 else 1) + (if ws[1].Idle? then 0 else 1)
  {
    assert ws[1..][1..] == [] && ws[1..][0] == ws[1];
    assert Busy(ws[1..]) == (if ws[1].Idle? then 0 else 1) + Busy(ws[1..][1..]);
  }

  /** The pool is stuck exactly when both channels are full, the scheduler is sending and both workers are resending. */
  lemma {:induction false} StuckIffAllSending(s: State)
    requires Reachable(s)
    ensures Stuck(s) <==>
      && |s.feedback| == CAPACITY && |s.queue| == CAPACITY && s.hand.Dispatching?
      && forall w :: 0 <= w < |s.workers| ==> s.workers[w].Rescheduling?
    ensures Stuck(s) ==> Outstanding(s) == 2051
  {
    var steps :| CanRun(Initial, steps) && Run(Initial, steps) == s;
    RunBounded(Initial, steps);
    TwoBusy(s.workers);
    if Stuck(s) {
      assert !Enabled(s, Check) && !Enabled(s, Take) && !Enabled(s, Dispatch);
      forall w | 0 <= w < |s.workers| ensures s.workers[w].Rescheduling? || (s.workers[w].Idle? && s.queue == []) {
        assert !Enabled(s, Process(w, true)) && !Enabled(s, Receive(w));
      }
      assert !Enabled(s, Resend(0)) && !Enabled(s, Resend(1));
    }
  }

  lemma {:induction false} SlackMeansProgress(s: State)
    requires Reachable(s) && 0 < Outstanding(s) < 2051
    ensures exists step :: Internal(step) && Enabled(s, step)
  {
    StuckIffAllSending(s);
  }

  // ---- Both bounds are reached ----

  function Copies(r: Request, n: nat): (rs: seq<Request>)
    ensures |rs| == n
  {
    if n == 0 then [] else Copies(r, n - 1) + [r]
  }

  /** The state looks like this, whatever its history. */
  ghost predicate Looks(s: State, feedback: seq<Request>, hand: Hand, queue: seq<Request>, workers: seq<Worker>) {
    s.feedback == feedback && s.hand == hand && s.queue == queue && s.workers == workers && s.cancelled == {}
  }

  lemma {:induction false} TakenInHand(s: State, r: Request, queue: seq<Request>, workers: seq<Worker>) returns (s': State)
    requires Reachable(s) && Looks(s, [], Empty, queue, workers)
    ensures Reachable(s') && Looks(s', [], Dispatching(r), queue, workers)
  {
    ReachableNext(s, Add(r));
    var s1 := Apply(s, Add(r));
    ReachableNext(s1, Take);
    var s2 := Apply(s1, Take);
    ReachableNext(s2, Check);
    s' := Apply(s2, Check);
  }

  lemma {:induction false} Queued(s: State, r: Request, queue: seq<Request>, workers: seq<Worker>) returns (s': State)
    requires Reachable(s) && Looks(s, [], Empty, queue, workers) && |queue| < CAPACITY
    ensures Reachable(s') && Looks(s', [], Empty, queue + [r], workers)
  {
    var s1 := TakenInHand(s, r, queue, workers);
    ReachableNext(s1, Dispatch);
    s' := Apply(s1, Dispatch);
  }

  lemma {:induction false} FillQueue(s: State, r: Request, n: nat, workers: seq<Worker>) returns (s': State)
    requires Reachable(s) && Looks(s, [], Empty, [], workers) && n <= CAPACITY
    ensures Reachable(s') && Looks(s', [], Empty, Copies(r, n), workers)
  {
    if n == 0 {
      s' := s;
    } else {
      var s1 := FillQueue(s, r, n - 1, workers);
      s' := Queued(s1, r, Copies(r, n - 1), workers);
    }
  }

  lemma {:induction false} FillFeedback(s: State, r: Request, n: nat, hand: Hand, queue: seq<Request>, workers: seq<Worker>)
    returns (s': State)
    requires Reachable(s) && Looks(s, [], hand, queue, workers) && n <= CAPACITY
    ensures Reachable(s') && Looks(s', Copies(r, n), hand, queue, workers)
  {
    if n == 0 {
      s' := s;
    } else {
      var s1 := FillFeedback(s, r, n - 1, hand, queue, workers);
      ReachableNext(s1, Add(r));
      s' := Apply(s1, Add(r));
    }
  }

  lemma {:induction false} FailOn(s: State, r: Request, w: nat, workers: seq<Worker>) returns (s': State)
    requires Reachable(s) && Looks(s, [], Empty, [], workers) && w < |workers| && workers[w].Idle?
    ensures Reachable(s') && Looks(s', [], Empty, [], workers[w := Rescheduling(r)])
  {
    var s1 := Queued(s, r, [], workers);
    ReachableNext(s1, Receive(w));
    var s2 := Apply(s1, Receive(w));
    ReachableNext(s2, Process(w, false));
    s' := Apply(s2, Process(w, false));
    assert s1.queue[1..] == [];
  }

  lemma {:induction false} InitiallyReachable()
    ensures Reachable(Initial) && Looks(Initial, [], Empty, [], [Idle, Idle])
  {
    assert CanRun(Initial, []) && Run(Initial, []) == Initial;
  }

  /** One request more than the capacity, and the scheduler's send can block. */
  lemma {:induction false} CapacityIsTight(r: Request) returns (s: State)
    ensures Reachable(s) && Outstanding(s) == 1025
    ensures s.hand.Dispatching? && !Enabled(s, Dispatch)
  {
    InitiallyReachable();
    var s1 := FillQueue(Initial, r, CAPACITY, [Idle, Idle]);
    s := TakenInHand(s1, r, Copies(r, CAPACITY), [Idle, Idle]);
    TwoBusy(s.workers);
  }

  /** Enough failing requests bring the whole pool to a halt. */
  lemma {:induction false} StuckIsReachable(r: Request) returns (s: State)
    ensures Reachable(s) && Stuck(s)
  {
    InitiallyReachable();
    var w1 := [Idle, Idle][0 := Rescheduling(r)];
    var w2 := w1[1 := Rescheduling(r)];
    var s1 := FailOn(Initial, r, 0, [Idle, Idle]);
    var s2 := FailOn(s1, r, 1, w1);
    var s3 := FillQueue(s2, r, CAPACITY, w2);
    var s4 := TakenInHand(s3, r, Copies(r, CAPACITY), w2);
    s := FillFeedback(s4, r, CAPACITY, Dispatching(r), Copies(r, CAPACITY), w2);
    StuckIffAllSending(s);
  }

  // ---- Cancellation ----

  function CountId(rs: seq<Request>, id: Id): nat {
    if rs == [] then 0 else CountId(rs[..|rs| - 1], id) + (if rs[|rs| - 1].id == id then 1 else 0)
  }

  function AboutToProcess(ws: seq<Worker>, id: Id): nat {
    if ws == [] then 0
    else (if ws[0].Processing? && ws[0].request.id == id then 1 else 0) + AboutToProcess(ws[1..], id)
  }

  /** Copies of an id past the scheduler's check and not yet processed. */
  function PastCheck(s: State, id: Id): nat {
    (if s.hand.Dispatching? && s.hand.request.id == id then 1 else 0) + CountId(s.queue, id) + AboutToProcess(s.workers, id)
  }

  lemma {:induction false} CountSnoc(rs: seq<Request>, r: Request, id: Id)
    ensures CountId(rs + [r], id) == CountId(rs, id) + (if r.id == id then 1 else 0)
  {
    assert (rs + [r])[..|rs|] == rs;
  }

  lemma {:induction false} CountTail(rs: seq<Request>, id: Id)
    requires rs != []
    ensures CountId(rs, id) == (if rs[0].id == id then 1 else 0) + CountId(rs[1..], id)
  {
    if |rs| > 1 {
      CountTail(rs[..|rs| - 1], id);
      assert rs[..|rs| - 1][1..] == rs[1..][..|rs| - 2];
    } else {
      assert rs[1..] == [] && rs[..0] == [];
    }
  }

  lemma {:induction false} AboutToProcessChanged(ws: seq<Worker>, w: nat, worker: Worker, id: Id)
    requires w < |ws|
    ensures AboutToProcess(ws[w := worker], id) + (if ws[w].Processing? && ws[w].request.id == id then 1 else 0)
         == AboutToProcess(ws, id) + (if worker.Processing? && worker.request.id == id then 1 else 0)
  {
    if w > 0 {
      AboutToProcessChanged(ws[1..], w - 1, worker, id);
      assert ws[w := worker][1..] == ws[1..][w - 1 := worker];
    } else {
      assert ws[w := worker][1..] == ws[1..];
    }
  }

  lemma {:induction false} CancelledStep(s: State, step: Step, id: Id)
    requires Enabled(s, step) && id in s.cancelled
    ensures id in Apply(s, step).cancelled
    ensures CountId(Apply(s, step).processed, id) + PastCheck(Apply(s, step), id) == CountId(s.processed, id) + PastCheck(s, id)
  {
    match step
    case Dispatch =>
      CountSnoc(s.queue, s.hand.request, id);
    case Receive(w) =>
      CountTail(s.queue, id);
      AboutToProcessChanged(s.workers, w, Processing(s.queue[0]), id);
    case Process(w, ok) =>
      CountSnoc(s.processed, s.workers[w].request, id);
      AboutToProcessChanged(s.workers, w, if ok then Idle else Rescheduling(s.workers[w].request), id);
    case Resend(w) =>
      AboutToProcessChanged(s.workers, w, Idle, id);
    case _ =>
  }

  /**
   * Once an id is cancelled, what is processed for it in any further run is exactly what leaves the part of the
   * pool past the scheduler's check: never more than the copies there at the moment of cancelling, and nothing
   * at all from a deployment added later under the same id.
   */
  lemma {:induction false} CancelledIdsDrain(s: State, steps: seq<Step>, id: Id)
    requires CanRun(s, steps) && id in s.cancelled
    ensures var s' := Run(s, steps);
      CountId(s'.processed, id) - CountId(s.processed, id) == PastCheck(s, id) - PastCheck(s', id)
    ensures CountId(Run(s, steps).processed, id) - CountId(s.processed, id) <= PastCheck(s, id)
    decreases |steps|
  {
    if steps != [] {
      CancelledStep(s, steps[0], id);
      CancelledIdsDrain(Apply(s, steps[0]), steps[1..], id);
    }
  }
}
