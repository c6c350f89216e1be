/** Many producers, one closing queue, one worker: every interleaving is a sequential run in enqueue order. */
module Concurrent {
  import opened Types
  import opened Allocation
  import opened EngineModel
  import opened EngineInvariant
  import opened Transactions
  import opened MatchingEngines
  import opened Answers

  datatype Channel<T> = Channel(items: seq<T>, closed: bool)

  /** A push is refused exactly when the queue is closed. */
  function Pushed<T>(c: Channel<T>, x: T): Channel<T> {
    if c.closed then c else c.(items := c.items + [x])
  }

  function Popped<T>(c: Channel<T>): Channel<T>
    requires c.items != []
  {
    c.(items := c.items[1..])
  }

  /** Each method is one region under the queue's mutex. */
  class BlockingQueue<T> {
    var items: seq<T>
    var closed: bool

    function Value(): Channel<T>
      reads this
    {
      Channel(items, closed)
    }

    constructor ()
      ensures Value() == Channel([], false)
    {
      items, closed := [], false;
    }

    method Push(x: T) returns (ok: bool)
      modifies this
      ensures ok == !old(closed) && Value() == Pushed(old(Value()), x)
    {
      if closed {
        return false;
      }
      items := items + [x];
      return true;
    }

    /** Entered once the wait is over: the queue is closed or holds something. An empty answer means closed and
        drained. */
    method Pop() returns (r: Option<T>)
      requires closed || items != []
      modifies this
      ensures r.None? <==> old(items) == []
      ensures r.None? ==> old(closed) && Value() == old(Value())
      ensures r.Some? ==> r.value == old(items)[0] && Value() == Popped(old(Value()))
    {
      if items == [] {
        return None;
      }
      r := Some(items[0]);
      items := items[1..];
    }

    method TryPop() returns (r: Option<T>)
      modifies this
      ensures r.None? <==> old(items) == []
      ensures Value() == if r.None? then old(Value()) else Popped(old(Value()))
      ensures r.Some? ==> r.value == old(items)[0]
    {
      if items == [] {
        return None;
      }
      r := Some(items[0]);
      items := items[1..];
    }

    method Close()
      modifies this
      ensures Value() == old(Value()).(closed := true)
    {
      if closed {
        return;
      }
      closed := true;
    }
  }

  /** A submitted command; the ticket stands for its promise. */
  datatype Request = Request(producer: nat, command: Command, ticket: nat)

  datatype Worker = Idle | Busy(request: Request) | Exited

  /** The shared state, with the log of accepted requests as a history variable. */
  datatype System = System(
    queue: Channel<Request>, worker: Worker, engine: Engine, answers: map<nat, Response>, accepted: seq<Request>)

  function Boot(engine: Engine): System {
    System(Channel([], false), Idle, engine, map[], [])
  }

  datatype Move =
    | Submit(producer: nat, command: Command)
    | Shutdown
    | Take
    | Finish
    | Exit

  predicate Enabled(s: System, m: Move) {
    match m
    case Submit(_, _) => true
    case Shutdown => true
    case Take => s.worker.Idle? && s.queue.items != []
    case Finish => s.worker.Busy?
    case Exit => s.worker.Idle? && s.queue.closed && s.queue.items == []
  }

  function Next(s: System, m: Move): System
    requires Enabled(s, m)
  {
    match m
    case Submit(producer, command) =>
      var request := Request(producer, command, |s.accepted|);
      s.(queue := Pushed(s.queue, request), accepted := if s.queue.closed then s.accepted else s.accepted + [request])
    case Shutdown => s.(queue := s.queue.(closed := true))
    case Take => s.(worker := Busy(s.queue.items[0]), queue := Popped(s.queue))
    case Finish =>
      var done := Step(s.engine, s.worker.request.command);
      s.(worker := Idle, engine := done.engine, answers := s.answers[s.worker.request.ticket := done.response])
    case Exit => s.(worker := Exited)
  }

  ghost predicate Schedule(s: System, moves: seq<Move>)
    decreases |moves|
  {
    moves != [] ==> Enabled(s, moves[0]) && Schedule(Next(s, moves[0]), moves[1..])
  }

  ghost function Reached(s: System, moves: seq<Move>): System
    requires Schedule(s, moves)
    decreases |moves|
  {
    if moves == [] then s else Reached(Next(s, moves[0]), moves[1..])
  }

  /** The sequential engine after the first requests of a log. */
  function Sequential(engine: Engine, log: seq<Request>): Engine {
    if log == [] then engine else Step(Sequential(engine, log[..|log| - 1]), log[|log| - 1].command).engine
  }

  /** What the sequential engine answers to request `i` of a log. */
  function Answer(engine: Engine, log: seq<Request>, i: nat): Response
    requires i < |log|
  {
    Step(Sequential(engine, log[..i]), log[i].command).response
  }

  function InFlight(s: System): seq<Request> {
    if s.worker.Busy? then [s.worker.request] else []
  }

  /** The linearization: the accepted log is what was answered, then what is in flight, then what is queued; engine and
      answers are those of the sequential run of the answered part. */
  ghost predicate Linear(start: Engine, s: System, done: nat) {
    done <= |s.accepted| &&
    s.accepted == s.accepted[..done] + InFlight(s) + s.queue.items &&
    (forall i :: 0 <= i < |s.accepted| ==> s.accepted[i].ticket == i) &&
    s.engine == Sequential(start, s.accepted[..done]) &&
    (forall i :: i in s.answers <==> 0 <= i < done) &&
    (forall i :: 0 <= i < done ==> s.answers[i] == Answer(start, s.accepted, i)) &&
    (s.worker.Exited? ==> s.queue.closed && done == |s.accepted|)
  }

  lemma SubmitKeepsLinear(start: Engine, s: System, done: nat, producer: nat, command: Command)
    requires Linear(start, s, done)
    ensures Linear(start, Next(s, Submit(producer, command)), done)
  {
    hide Step, Sequential;
    var next := Next(s, Submit(producer, command));
    if !s.queue.closed {
      assert next.accepted[..done] == s.accepted[..done];
      forall i | 0 <= i < done ensures Answer(start, next.accepted, i) == Answer(start, s.accepted, i) {
        assert next.accepted[..i] == s.accepted[..i];
      }
    }
  }

  lemma FinishKeepsLinear(start: Engine, s: System, done: nat)
    requires Linear(start, s, done) && s.worker.Busy?
    ensures Linear(start, Next(s, Finish), done + 1)
    ensures s.worker.request.ticket == done && s.worker.request.ticket !in s.answers
  {
    hide Step;
    var next := Next(s, Finish);
    assert s.accepted[done] == s.worker.request;
    var log := s.accepted[..done + 1];
    assert log[..done] == s.accepted[..done];
    assert next.accepted == log + [] + next.queue.items;
    assert Sequential(start, log) == next.engine;
  }

  lemma MoveKeepsLinear(start: Engine, s: System, done: nat, m: Move)
    requires Linear(start, s, done) && Enabled(s, m)
    ensures Linear(start, Next(s, m), if m.Finish? then done + 1 else done)
  {
    hide Step, Sequential, Answer;
    match m
    case Submit(producer, command) => SubmitKeepsLinear(start, s, done, producer, command);
    case Finish => FinishKeepsLinear(start, s, done);
    case Take => assert [s.queue.items[0]] + s.queue.items[1..] == s.queue.items;
    case Shutdown =>
    case Exit =>
  }

  /** Linearizability of every interleaving: whatever producers and worker do and in whatever order, some number of the
      accepted requests has been answered, in enqueue order, exactly as the sequential engine answers them. */
  lemma {:induction false} EveryScheduleIsSequential(start: Engine, s: System, done: nat, moves: seq<Move>)
    returns (end: nat)
    requires Linear(start, s, done) && Schedule(s, moves)
    ensures Linear(start, Reached(s, moves), end) && end >= done
    ensures s.accepted <= Reached(s, moves).accepted
    decreases |moves|
  {
    hide Linear, Step;
    if moves == [] {
      end := done;
    } else {
      MoveKeepsLinear(start, s, done, moves[0]);
      var next := if moves[0].Finish? then done + 1 else done;
      end := EveryScheduleIsSequential(start, Next(s, moves[0]), next, moves[1..]);
    }
  }

  /** From boot: the engine always satisfies its invariant; once the worker has exited the queue is closed and empty and
      every accepted request has exactly one answer. */
  lemma ScheduleFromBoot(start: Engine, moves: seq<Move>)
    requires Inv(start) && Schedule(Boot(start), moves)
    ensures var s := Reached(Boot(start), moves);
            Inv(s.engine) &&
            (exists done: nat :: Linear(start, s, done)) &&
            (s.worker.Exited? ==>
              s.queue == Channel([], true) &&
              (forall i :: i in s.answers <==> 0 <= i < |s.accepted|) &&
              forall i :: 0 <= i < |s.accepted| ==> s.answers[i] == Answer(start, s.accepted, i))
  {
    hide Inv, Step, Sequential, Answer;
    BootLinear(start);
    var done := EveryScheduleIsSequential(start, Boot(start), 0, moves);
    var s := Reached(Boot(start), moves);
    SequentialKeepsInv(start, s.accepted[..done]);
    if s.worker.Exited? {
      assert |s.accepted| == done + |s.queue.items|;
    }
  }

  lemma BootLinear(start: Engine)
    ensures Linear(start, Boot(start), 0)
  {
  }

  lemma {:induction false} SequentialKeepsInv(start: Engine, log: seq<Request>)
    requires Inv(start)
    ensures Inv(Sequential(start, log))
  {
    hide Inv, Step;
    if log != [] {
      SequentialKeepsInv(start, log[..|log| - 1]);
      StepKeepsInv(Sequential(start, log[..|log| - 1]), log[|log| - 1].command);
    }
  }

  /** The order respects real time and answers are final: whatever happens after request `i` was answered, the requests
      accepted later stand behind it in the log, and its answer never changes. */
  lemma AnsweredIsSettled(start: Engine, s: System, done: nat, moves: seq<Move>, i: nat)
    requires Linear(start, s, done) && Schedule(s, moves) && i in s.answers
    ensures var end := Reached(s, moves);
            i < |s.accepted| <= |end.accepted| && end.accepted[..|s.accepted|] == s.accepted &&
            i in end.answers && end.answers[i] == s.answers[i]
  {
    hide Step, Sequential, Reached;
    var last := EveryScheduleIsSequential(start, s, done, moves);
    var end := Reached(s, moves);
    assert end.accepted[..i] == s.accepted[..i];
  }

  predicate ByWorker(m: Move) {
    m.Take? || m.Finish? || m.Exit?
  }

  /** Work left for the worker: two moves per queued request, one in flight, one to leave. */
  function Work(s: System): nat {
    2 * |s.queue.items| + (if s.worker.Busy? then 2 else if s.worker.Idle? then 1 else 0)
  }

  function WorkerMoves(moves: seq<Move>): nat {
    if moves == [] then 0 else (if ByWorker(moves[0]) then 1 else 0) + WorkerMoves(moves[1..])
  }

  /** After shutdown the queue drains: every worker move uses up work, producers cannot add any, and the worker is never
      stuck before it has exited. So no schedule holds more worker moves than there was work, and one that holds as many
      has drained everything. */
  lemma {:induction false} ShutdownDrains(s: System, moves: seq<Move>)
    requires s.queue.closed && Schedule(s, moves)
    ensures Reached(s, moves).queue.closed && Reached(s, moves).accepted == s.accepted
    ensures Work(Reached(s, moves)) == Work(s) - WorkerMoves(moves)
    ensures !Reached(s, moves).worker.Exited? ==> exists m :: ByWorker(m) && Enabled(Reached(s, moves), m)
    decreases |moves|
  {
    hide Step;
    if moves == [] {
      var m := if s.worker.Busy? then Finish else if s.queue.items != [] then Take else Exit;
      assert s.worker.Exited? || (ByWorker(m) && Enabled(s, m));
    } else {
      var next := Next(s, moves[0]);
      assert Work(next) == Work(s) - if ByWorker(moves[0]) then 1 else 0;
      ShutdownDrains(next, moves[1..]);
    }
  }

  /** `process_command`, with enough memory: the engine's own methods do what `Step` says, and the promise gets its
      response. */
  method ProcessCommand(engine: MatchingEngine, c: Command) returns (response: Response)
    requires engine.Valid() && engine.memory.Unlimited()
    modifies engine, engine.book, engine.manager, engine.store, engine.ids, engine.memory
    ensures engine.Valid()
    ensures Step(old(engine.State()), c).engine == engine.State() && Step(old(engine.State()), c).response == response
    ensures Lawful(old(engine.State()), c, Stepped(engine.State(), response, Step(old(engine.State()), c).trades))
  {
    hide Inv, Place, Market, Cancel, Modify, Lawful, PlaceLaw, MarketLaw, CancelLaw, ModifyLaw, Damaged,
         PriceChangeLoss;
    ghost var entry := engine.State();
    StepIsLawful(entry, c);
    match c {
      case PlaceLimit(side, price, quantity) =>
        var r := engine.PlaceLimitOrder(side, price, quantity);
        RefusalsChangeNothing(entry, c);
        response := Placed(r);
      case ExecuteMarket(side, quantity) =>
        NoFillLost(engine.memory, engine.memory.clock);
        var r := engine.ExecuteMarketOrder(side, quantity);
        RefusalsChangeNothing(entry, c);
        response := Executed(r);
      case CancelOrder(id) =>
        var r := engine.CancelOrder(id);
        response := Changed(r);
      case ModifyOrder(id, price, quantity) =>
        NoFillLost(engine.memory, engine.memory.clock);
        var r := engine.ModifyOrder(id, price, quantity);
        RefusalsChangeNothing(entry, c);
        response := Changed(r);
      case ActiveOrders =>
        response := OrdersAre(engine.manager.orders);
      case TradeHistory =>
        response := TradesAre(engine.store.trades);
      case ClearHistory =>
        StepKeepsInv(entry, c);
        engine.store.Clear();
        response := Cleared;
    }
  }

  lemma NoFillLost(memory: Memory, clock: nat)
    requires memory.Unlimited()
    ensures forall collect: bool, k: nat :: !LosesFill(memory, clock, collect, k)
  {
  }

  lemma RefusalsChangeNothing(e: Engine, c: Command)
    ensures match Step(e, c).response
            case Placed(Err(_)) => Step(e, c).engine == e
            case Executed(Err(_)) => Step(e, c).engine == e
            case Changed(Err(_)) => Step(e, c).engine == e
            case _ => true
  {
    hide Match, MatchBook, Enter;
  }

  /** Every answer in every schedule obeys the law of its command, between the states the sequential run has there. */
  lemma EveryAnswerIsLawful(start: Engine, moves: seq<Move>, i: nat)
    requires Inv(start) && Schedule(Boot(start), moves) && i in Reached(Boot(start), moves).answers
    ensures var s := Reached(Boot(start), moves);
            i < |s.accepted| &&
            var before, after := Sequential(start, s.accepted[..i]), Sequential(start, s.accepted[..i + 1]);
            Lawful(before, s.accepted[i].command,
                   Stepped(after, s.answers[i], Step(before, s.accepted[i].command).trades))
  {
    hide Inv, Step, Lawful, Sequential;
    BootLinear(start);
    var done := EveryScheduleIsSequential(start, Boot(start), 0, moves);
    var s := Reached(Boot(start), moves);
    SequentialKeepsInv(start, s.accepted[..i]);
    SequentialStep(start, s.accepted, i);
    StepIsLawful(Sequential(start, s.accepted[..i]), s.accepted[i].command);
  }

  lemma SequentialStep(start: Engine, log: seq<Request>, i: nat)
    requires i < |log|
    ensures Sequential(start, log[..i + 1]) == Step(Sequential(start, log[..i]), log[i].command).engine
  {
    hide Step;
    assert log[..i + 1][..i] == log[..i];
  }
}
