/**
  The event bus (`file.engine.event.handler.EventManagement`).

  Tasks ("events") are objects whose status and attempt counter are changed in place. A
  blocking task waits on the block lane, which one thread drains in order; any other task
  waits on the async lane, which four workers drain. Each time a worker takes a task it either
  drops it (already finished or failed), attempts it (invoking the one handler registered for
  its class, requeueing it if the handler throws), or, once its attempts are used up, marks it
  failed and counts the failure. More than 20 counted failures make the block lane submit a
  `RestartEvent`, which stops the bus and the process.

  Threads are not modelled: one call of `BlockStep` or `AsyncStep` is one turn of that lane's
  loop, and any interleaving of the lanes is a sequence of such calls. A handler is an oracle
  that either returns or throws (`handlerThrows`); listeners are recorded as the chains handed
  to the thread pool.
*/
module EventManagement {
  import opened Common

  /** More than this many counted failures makes the block lane submit a restart. */
  const FailureThreshold: int := 20

  /** `RestartEvent.class.toString()`: the kind under which restart listeners are registered. */
  const RestartClassName: string := "class file.engine.event.handler.impl.stop.RestartEvent"
  const CloseClassName: string := "class file.engine.event.handler.impl.stop.CloseEvent"

  /** The class of a task: `RestartEvent`, its subclass `CloseEvent`, or any other class. */
  datatype EventKind = RestartEvent | CloseEvent | Plain(className: string)

  /** `event.getClass().toString()`: the key of the handler and listener maps. */
  function ClassName(kind: EventKind): string
  {
    match kind
    case RestartEvent => RestartClassName
    case CloseEvent => CloseClassName
    case Plain(name) => name
  }

  /** `event instanceof RestartEvent`. */
  predicate IsRestart(kind: EventKind)
  {
    kind.RestartEvent? || kind.CloseEvent?
  }

  /** A registered handler or listener method, by name. */
  type MethodName = string

  /** The mutable part of a task: attempts made, and the two terminal marks. */
  datatype TaskState = TaskState(executeTimes: nat, finished: bool, failed: bool)

  /** `Event`: a task, mutated in place until it is finished or failed. */
  class Event {
    const kind: EventKind
    const isBlock: bool
    const maxRetryTimes: nat
    var executeTimes: nat
    var finished: bool
    var failed: bool

    constructor (kind: EventKind, isBlock: bool, maxRetryTimes: nat)
      ensures this.kind == kind && this.isBlock == isBlock && this.maxRetryTimes == maxRetryTimes
      ensures State() == Fresh()
    {
      this.kind := kind;
      this.isBlock := isBlock;
      this.maxRetryTimes := maxRetryTimes;
      executeTimes := 0;
      finished := false;
      failed := false;
    }

    function State(): TaskState
      reads this
    {
      TaskState(executeTimes, finished, failed)
    }
  }

  /** A listener chain handed to the thread pool: the listeners of `eventType`, to be run with `event`. */
  datatype ListenerRun = ListenerRun(eventType: string, listeners: seq<MethodName>, event: Event)

  // ---------------------------------------------------------------------------
  // The per-task retry state machine
  // ---------------------------------------------------------------------------

  /** A task as it is created. */
  function Fresh(): TaskState
  {
    TaskState(0, false, false)
  }

  predicate Terminal(s: TaskState)
  {
    s.finished || s.failed
  }

  /**
    One dequeue of a task that is not a restart, by either lane: a terminal task is dropped;
    with attempts left it is attempted (`throws`: a handler is registered and throws); otherwise
    it is marked failed.
  */
  function Dispatched(s: TaskState, maxRetryTimes: nat, throws: bool): (r: TaskState)
    ensures Terminal(s) ==> r == s
    ensures !Terminal(s) && s.executeTimes < maxRetryTimes ==>
      r.executeTimes == s.executeTimes + 1 && !r.failed && (r.finished <==> !throws)
    ensures !Terminal(s) && s.executeTimes >= maxRetryTimes ==>
      r.executeTimes == s.executeTimes && r.failed && !r.finished
  {
    if Terminal(s) then s
    else if s.executeTimes < maxRetryTimes then
      if throws then s.(executeTimes := s.executeTimes + 1)
      else s.(executeTimes := s.executeTimes + 1, finished := true)
    else s.(failed := true)
  }

  /** The state after dequeues whose handler outcomes are `throws`, in order. */
  function Run(s: TaskState, maxRetryTimes: nat, throws: seq<bool>): TaskState
    decreases |throws|
  {
    if throws == [] then s else Run(Dispatched(s, maxRetryTimes, throws[0]), maxRetryTimes, throws[1..])
  }

  /** `n` dequeues whose handler always throws. */
  function AlwaysThrows(n: nat): (r: seq<bool>)
    ensures |r| == n && forall i :: 0 <= i < n ==> r[i]
  {
    seq(n, _ => true)
  }

  lemma {:induction false} AlwaysThrowingFrom(k: nat, maxRetryTimes: nat, n: nat)
    requires k <= maxRetryTimes
    ensures k + n <= maxRetryTimes ==>
      Run(TaskState(k, false, false), maxRetryTimes, AlwaysThrows(n)) == TaskState(k + n, false, false)
    ensures k + n > maxRetryTimes ==>
      Run(TaskState(k, false, false), maxRetryTimes, AlwaysThrows(n)) == TaskState(maxRetryTimes, false, true)
    decreases n
  {
    if n > 0 {
      assert AlwaysThrows(n)[1..] == AlwaysThrows(n - 1);
      if k < maxRetryTimes {
        AlwaysThrowingFrom(k + 1, maxRetryTimes, n - 1);
      } else {
        var failed := TaskState(maxRetryTimes, false, true);
        StaysTerminal(failed, maxRetryTimes, AlwaysThrows(n - 1));
      }
    }
  }

  /** A terminal task is never changed again. */
  lemma {:induction false} StaysTerminal(s: TaskState, maxRetryTimes: nat, throws: seq<bool>)
    requires Terminal(s)
    ensures Run(s, maxRetryTimes, throws) == s
    decreases |throws|
  {
    if throws != [] {
      StaysTerminal(s, maxRetryTimes, throws[1..]);
    }
  }

  /**
    A task whose handler always throws is attempted exactly `maxRetryTimes` times: after
    `maxRetryTimes` dequeues it is still pending, and the next dequeue marks it failed without
    another attempt.
  */
  lemma RetryBudget(maxRetryTimes: nat, n: nat)
    ensures n <= maxRetryTimes ==> Run(Fresh(), maxRetryTimes, AlwaysThrows(n)) == TaskState(n, false, false)
    ensures n > maxRetryTimes ==> Run(Fresh(), maxRetryTimes, AlwaysThrows(n)) == TaskState(maxRetryTimes, false, true)
  {
    AlwaysThrowingFrom(0, maxRetryTimes, n);
  }

  /** What every task reachable from `Fresh()` satisfies. */
  predicate Reachable(s: TaskState, maxRetryTimes: nat)
  {
    && s.executeTimes <= maxRetryTimes
    && !(s.finished && s.failed)
    && (s.failed ==> s.executeTimes == maxRetryTimes)
    && (s.finished ==> s.executeTimes >= 1)
  }

  /**
    Whatever the handler does, a task never exceeds its retry budget, is never both finished and
    failed, is failed only with its budget used up, and is finished only after an attempt.
  */
  lemma {:induction false} RunKeepsReachable(s: TaskState, maxRetryTimes: nat, throws: seq<bool>)
    requires Reachable(s, maxRetryTimes)
    ensures Reachable(Run(s, maxRetryTimes, throws), maxRetryTimes)
    ensures Run(s, maxRetryTimes, throws).executeTimes >= s.executeTimes
    decreases |throws|
  {
    if throws != [] {
      RunKeepsReachable(Dispatched(s, maxRetryTimes, throws[0]), maxRetryTimes, throws[1..]);
    }
  }

  // ---------------------------------------------------------------------------
  // Queues and registries
  // ---------------------------------------------------------------------------

  /** `if (!queue.contains(e)) queue.add(e)`. */
  function AddAbsent(queue: seq<Event>, e: Event): (r: seq<Event>)
  {
    if e in queue then queue else queue + [e]
  }

  /** Adding only what is absent keeps a queue free of duplicates, and the task ends up in it exactly once. */
  lemma AddAbsentNoDuplicates(queue: seq<Event>, e: Event)
    requires NoDuplicates(queue)
    ensures NoDuplicates(AddAbsent(queue, e))
    ensures e in AddAbsent(queue, e)
    ensures AddAbsent(queue, e)[..|queue|] == queue
  {
  }

  /** The listener map after `registerListener(eventType, todo)`. */
  function WithListener(listeners: map<string, seq<MethodName>>, eventType: string, todo: MethodName): (r: map<string, seq<MethodName>>)
    ensures r.Keys == listeners.Keys + {eventType}
    ensures eventType in listeners ==> r[eventType] == listeners[eventType] + [todo]
    ensures eventType !in listeners ==> r[eventType] == [todo]
    ensures forall k :: k in listeners && k != eventType ==> r[k] == listeners[k]
  {
    if eventType in listeners then listeners[eventType := listeners[eventType] + [todo]]
    else listeners[eventType := [todo]]
  }

  /** The first task of a queue, as a frame. */
  function Head(queue: seq<Event>): set<Event>
  {
    if queue == [] then {} else {queue[0]}
  }

  /** `EventManagement`: the two lanes, the registries, the failure counter and the exit flag. */
  class EventManagement {
    /** `exit`: once set, no task is admitted and the lanes stop when both are empty. */
    var exit: bool
    var blockEventQueue: seq<Event>
    var asyncEventQueue: seq<Event>
    /** `EVENT_HANDLER_MAP`: at most one handler per class. */
    var eventHandlerMap: map<string, MethodName>
    /** `EVENT_LISTENER_MAP`: the listeners of each class, in registration order. */
    var eventListenerMap: map<string, seq<MethodName>>
    /** `failureEventNum`: tasks marked failed so far. */
    var failureEventNum: int
    /** The listener chains handed to the thread pool so far, in order. */
    var listenerRuns: seq<ListenerRun>
    /** `ProcessUtil.stopDaemon()` has been called. */
    var daemonStopped: bool
    /** `System.exit(0)` has been reached; nothing runs after it. */
    var processExited: bool
    /** The retry budget of a `RestartEvent` as `Event` sets it (that class is not part of this model). */
    const restartRetryTimes: nat

    /** Each lane holds every task at most once, and only tasks of its own kind. */
    predicate Valid()
      reads this
    {
      && NoDuplicates(blockEventQueue)
      && NoDuplicates(asyncEventQueue)
      && (forall e :: e in blockEventQueue ==> e.isBlock)
      && (forall e :: e in asyncEventQueue ==> !e.isBlock)
    }

    constructor (restartRetryTimes: nat)
      ensures Valid()
      ensures !exit && blockEventQueue == [] && asyncEventQueue == []
      ensures eventHandlerMap == map[] && eventListenerMap == map[]
      ensures failureEventNum == 0 && listenerRuns == [] && !daemonStopped && !processExited
      ensures this.restartRetryTimes == restartRetryTimes
    {
      exit := false;
      blockEventQueue := [];
      asyncEventQueue := [];
      eventHandlerMap := map[];
      eventListenerMap := map[];
      failureEventNum := 0;
      listenerRuns := [];
      daemonStopped := false;
      processExited := false;
      this.restartRetryTimes := restartRetryTimes;
    }

    /** `isNotMainExit`. */
    predicate IsNotMainExit()
      reads this
    {
      !exit
    }

    /** `isEventHandlerNotExit`: the lanes keep running until exit is set and both lanes are empty. */
    predicate IsEventHandlerNotExit(): (running: bool)
      reads this
      ensures !exit ==> running
      ensures exit ==> (running <==> blockEventQueue != [] || asyncEventQueue != [])
    {
      !(exit && blockEventQueue == [] && asyncEventQueue == [])
    }

    /** The listener chain `doAllMethod(eventType, event)` hands to the pool, if any listener is registered. */
    function RunsFor(eventType: string, event: Event): seq<ListenerRun>
      reads this
    {
      if eventType in eventListenerMap then [ListenerRun(eventType, eventListenerMap[eventType], event)] else []
    }

    /**
      `putEvent`: rejected once exit is set; otherwise a blocking task joins the block lane and any
      other the async lane, unless it is already waiting there.
    */
    method PutEvent(event: Event)
      requires Valid()
      modifies this`blockEventQueue, this`asyncEventQueue
      ensures Valid()
      ensures exit ==> blockEventQueue == old(blockEventQueue) && asyncEventQueue == old(asyncEventQueue)
      ensures !exit && event.isBlock ==>
        blockEventQueue == AddAbsent(old(blockEventQueue), event) && asyncEventQueue == old(asyncEventQueue)
      ensures !exit && !event.isBlock ==>
        asyncEventQueue == AddAbsent(old(asyncEventQueue), event) && blockEventQueue == old(blockEventQueue)
    {
      if !exit {
        if event.isBlock {
          AddAbsentNoDuplicates(blockEventQueue, event);
          if event !in blockEventQueue {
            blockEventQueue := blockEventQueue + [event];
          }
        } else {
          AddAbsentNoDuplicates(asyncEventQueue, event);
          if event !in asyncEventQueue {
            asyncEventQueue := asyncEventQueue + [event];
          }
        }
      }
    }

    /** `registerHandler`: a second handler for the same class throws and changes nothing. */
    method RegisterHandler(eventType: string, handler: MethodName) returns (r: Outcome)
      modifies this`eventHandlerMap
      ensures eventType in old(eventHandlerMap) ==> r.Raised? && eventHandlerMap == old(eventHandlerMap)
      ensures eventType !in old(eventHandlerMap) ==>
        r == Done && eventHandlerMap == old(eventHandlerMap)[eventType := handler]
    {
      if eventType in eventHandlerMap {
        return Raised(RuntimeException("duplicate handler: " + eventType));
      }
      eventHandlerMap := eventHandlerMap[eventType := handler];
      return Done;
    }

    /** `registerListener`: appends to the class's listeners, creating the list if absent. */
    method RegisterListener(eventType: string, todo: MethodName)
      modifies this`eventListenerMap
      ensures eventListenerMap == WithListener(old(eventListenerMap), eventType, todo)
    {
      if eventType !in eventListenerMap {
        eventListenerMap := eventListenerMap[eventType := [todo]];
      } else {
        eventListenerMap := eventListenerMap[eventType := eventListenerMap[eventType] + [todo]];
      }
    }

    /** `doAllMethod`: hands the class's listener chain, if there is one, to the thread pool. */
    method DoAllMethod(eventType: string, event: Event)
      modifies this`listenerRuns
      ensures listenerRuns == old(listenerRuns) + RunsFor(eventType, event)
    {
      if eventType in eventListenerMap {
        listenerRuns := listenerRuns + [ListenerRun(eventType, eventListenerMap[eventType], event)];
      }
    }

    /**
      `executeTaskFailed`: counts an attempt and runs the task; returns true when it failed. A
      restart sets exit, runs the restart listeners, stops the daemon for a `CloseEvent`, marks
      the task finished and ends the process. Otherwise a missing handler or one that returns
      marks the task finished and runs its listeners; a handler that throws leaves it unfinished.
    */
    method ExecuteTaskFailed(event: Event, handlerThrows: bool) returns (failed: bool)
      requires !processExited
      modifies this`exit, this`listenerRuns, this`daemonStopped, this`processExited
      modifies event`executeTimes, event`finished
      ensures event.executeTimes == old(event.executeTimes) + 1
      ensures IsRestart(event.kind) ==>
        && exit && processExited && event.finished && failed
        && daemonStopped == (old(daemonStopped) || event.kind.CloseEvent?)
        && listenerRuns == old(listenerRuns) + RunsFor(RestartClassName, event)
      ensures !IsRestart(event.kind) ==>
        && exit == old(exit) && processExited == old(processExited) && daemonStopped == old(daemonStopped)
        && failed == (handlerThrows && ClassName(event.kind) in eventHandlerMap)
        && event.finished == (old(event.finished) || !failed)
        && listenerRuns == old(listenerRuns) + (if failed then [] else RunsFor(ClassName(event.kind), event))
    {
      event.executeTimes := event.executeTimes + 1;
      if IsRestart(event.kind) {
        exit := true;
        DoAllMethod(RestartClassName, event);
        if event.kind.CloseEvent? {
          daemonStopped := true;
        }
        event.finished := true;
        processExited := true;
        return true;
      }
      var eventClassName := ClassName(event.kind);
      if eventClassName in eventHandlerMap {
        if handlerThrows {
          return true;
        }
        event.finished := true;
        DoAllMethod(eventClassName, event);
        return false;
      }
      event.finished := true;
      DoAllMethod(eventClassName, event);
      return false;
    }

    /** Whether a handler invocation for `event` throws: a handler is registered and it throws. */
    function HandlerFails(event: Event, handlerThrows: bool): bool
      reads this
    {
      handlerThrows && ClassName(event.kind) in eventHandlerMap
    }

    /**
      The part of a lane's turn after it has taken `event` off its queue: drop it if terminal,
      attempt it if it has attempts left (true when it must be requeued), otherwise mark it
      failed and count the failure.
    */
    method ProcessPolled(event: Event, handlerThrows: bool) returns (requeue: bool)
      requires !processExited
      modifies this`exit, this`listenerRuns, this`daemonStopped, this`processExited, this`failureEventNum
      modifies event`executeTimes, event`finished, event`failed
      ensures var attempted := !Terminal(old(event.State())) && old(event.executeTimes) < event.maxRetryTimes;
        && (!(attempted && IsRestart(event.kind)) ==>
              && event.State() == Dispatched(old(event.State()), event.maxRetryTimes, HandlerFails(event, handlerThrows))
              && exit == old(exit) && processExited == old(processExited) && daemonStopped == old(daemonStopped)
              && requeue == (attempted && HandlerFails(event, handlerThrows))
              && listenerRuns == old(listenerRuns) +
                   (if event.finished && !old(event.finished) then RunsFor(ClassName(event.kind), event) else []))
        && (attempted && IsRestart(event.kind) ==>
              && processExited && exit && event.finished && !event.failed
              && event.executeTimes == old(event.executeTimes) + 1
              && daemonStopped == (old(daemonStopped) || event.kind.CloseEvent?)
              && listenerRuns == old(listenerRuns) + RunsFor(RestartClassName, event))
      ensures failureEventNum == old(failureEventNum) + (if event.failed && !old(event.failed) then 1 else 0)
    {
      if event.finished || event.failed {
        return false;
      }
      if event.executeTimes < event.maxRetryTimes {
        requeue := ExecuteTaskFailed(event, handlerThrows);
      } else {
        event.failed := true;
        failureEventNum := failureEventNum + 1;
        requeue := false;
      }
    }

    /**
      One turn of the block lane's loop. It runs only while `isEventHandlerNotExit`; it takes the
      oldest blocking task, processes it, and when an attempt failed it first submits a
      `RestartEvent` if more than 20 failures are counted, then puts the task back at the tail.
    */
    method BlockStep(handlerThrows: bool) returns (running: bool)
      requires Valid() && !processExited
      modifies this, Head(blockEventQueue)
      ensures Valid()
      ensures running == old(IsEventHandlerNotExit())
      ensures !running || old(blockEventQueue) == [] ==> unchanged(this) && unchanged(Head(old(blockEventQueue)))
      ensures asyncEventQueue == old(asyncEventQueue)
      ensures eventHandlerMap == old(eventHandlerMap) && eventListenerMap == old(eventListenerMap)
      ensures running && old(blockEventQueue) != [] ==>
        var event := old(blockEventQueue)[0];
        var attempted := !Terminal(old(event.State())) && old(event.executeTimes) < event.maxRetryTimes;
        && (!(attempted && IsRestart(event.kind)) ==>
              && exit == old(exit) && processExited == old(processExited) && daemonStopped == old(daemonStopped)
              && listenerRuns == old(listenerRuns) +
                   (if event.finished && !old(event.finished) then RunsFor(ClassName(event.kind), event) else []))
        && (attempted && IsRestart(event.kind) ==>
              && exit && processExited && daemonStopped == (old(daemonStopped) || event.kind.CloseEvent?)
              && listenerRuns == old(listenerRuns) + RunsFor(RestartClassName, event))
      ensures running && old(blockEventQueue) != [] && !processExited ==>
        var event := old(blockEventQueue)[0];
        var rest := old(blockEventQueue)[1..];
        var requeued := !Terminal(old(event.State())) && old(event.executeTimes) < event.maxRetryTimes
          && HandlerFails(event, handlerThrows);
        && event.State() == Dispatched(old(event.State()), event.maxRetryTimes, HandlerFails(event, handlerThrows))
        && failureEventNum == old(failureEventNum) + (if event.failed && !old(event.failed) then 1 else 0)
        && (!requeued ==> blockEventQueue == rest)
        && (requeued && (exit || failureEventNum <= FailureThreshold) ==> blockEventQueue == rest + [event])
        && (requeued && !exit && failureEventNum > FailureThreshold ==>
              && |blockEventQueue| == |rest| + 2
              && blockEventQueue[..|rest|] == rest
              && blockEventQueue[|rest| + 1] == event
              && fresh(blockEventQueue[|rest|])
              && blockEventQueue[|rest|].kind == RestartEvent
              && blockEventQueue[|rest|].State() == Fresh())
    {
      running := IsEventHandlerNotExit();
      if !running || blockEventQueue == [] {
        return;
      }
      var event := blockEventQueue[0];
      blockEventQueue := blockEventQueue[1..];
      var failed := ProcessPolled(event, handlerThrows);
      if processExited {
        return;
      }
      if failed {
        if failureEventNum > FailureThreshold {
          var restart := new Event(RestartEvent, true, restartRetryTimes);
          PutEvent(restart);
        }
        assert event !in blockEventQueue;
        blockEventQueue := blockEventQueue + [event];
      }
    }

    /** One turn of an async worker's loop: like the block lane, without the restart escalation. */
    method AsyncStep(handlerThrows: bool) returns (running: bool)
      requires Valid() && !processExited
      modifies this, Head(asyncEventQueue)
      ensures Valid()
      ensures running == old(IsEventHandlerNotExit())
      ensures !running || old(asyncEventQueue) == [] ==> unchanged(this) && unchanged(Head(old(asyncEventQueue)))
      ensures blockEventQueue == old(blockEventQueue)
      ensures eventHandlerMap == old(eventHandlerMap) && eventListenerMap == old(eventListenerMap)
      ensures running && old(asyncEventQueue) != [] ==>
        var event := old(asyncEventQueue)[0];
        var attempted := !Terminal(old(event.State())) && old(event.executeTimes) < event.maxRetryTimes;
        && (!(attempted && IsRestart(event.kind)) ==>
              && exit == old(exit) && processExited == old(processExited) && daemonStopped == old(daemonStopped)
              && listenerRuns == old(listenerRuns) +
                   (if event.finished && !old(event.finished) then RunsFor(ClassName(event.kind), event) else []))
        && (attempted && IsRestart(event.kind) ==>
              && exit && processExited && daemonStopped == (old(daemonStopped) || event.kind.CloseEvent?)
              && listenerRuns == old(listenerRuns) + RunsFor(RestartClassName, event))
      ensures running && old(asyncEventQueue) != [] && !processExited ==>
        var event := old(asyncEventQueue)[0];
        var rest := old(asyncEventQueue)[1..];
        var requeued := !Terminal(old(event.State())) && old(event.executeTimes) < event.maxRetryTimes
          && HandlerFails(event, handlerThrows);
        && event.State() == Dispatched(old(event.State()), event.maxRetryTimes, HandlerFails(event, handlerThrows))
        && failureEventNum == old(failureEventNum) + (if event.failed && !old(event.failed) then 1 else 0)
        && asyncEventQueue == (if requeued then rest + [event] else rest)
    {
      running := IsEventHandlerNotExit();
      if !running || asyncEventQueue == [] {
        return;
      }
      var event := asyncEventQueue[0];
      asyncEventQueue := asyncEventQueue[1..];
      var failed := ProcessPolled(event, handlerThrows);
      if processExited {
        return;
      }
      if failed {
        assert event !in asyncEventQueue;
        asyncEventQueue := asyncEventQueue + [event];
      }
    }
  }
}
