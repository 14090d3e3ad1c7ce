/**
 * The state of `HttpInterface` that its request handlers share: the per-connection
 * queues of requests awaiting their responses (`pendingResponses`), the requests
 * waiting for a variable's value (`pendingVariables`), the event subscriptions of
 * long-lived requests (`eventSubscriptions`), the node tables the handlers read,
 * and a log of what the interface sends to the nodes.
 */
module HttpInterfaceState {
  import opened Wrappers
  import opened AsebaTypes
  import opened HttpRequests

  /** A Dashel stream, known only by its identity. */
  type StreamId = nat

  /** `Aseba::CommonDefinitions`: the events and constants the loaded AESL file declares. */
  datatype CommonDefinitions = CommonDefinitions(events: seq<NamedValue>, constants: seq<NamedValue>)

  const EmptyDefinitions := CommonDefinitions([], [])

  /** An entry of a compiled `VariablesMap`: a variable's name, address and length. */
  datatype VariableEntry = VariableEntry(name: string, pos: nat, size: nat)

  /** What the interface sends to the Aseba side. */
  datatype Action =
    | SetVariableSent(node: NodeId, args: seq<string>)
    | EventSent(node: NodeId, args: seq<string>)
    | GetVariablesSent(node: NodeId, args: seq<string>)
    | Wrote(stream: StreamId, message: Message)
    | Loaded(node: NodeId, script: string)

  /** `commonDefinitions[nodeId]` as read: a node without definitions has empty ones. */
  function DefinitionsIn(definitions: map<NodeId, CommonDefinitions>, node: NodeId): CommonDefinitions {
    if node in definitions then definitions[node] else EmptyDefinitions
  }

  /** The set of names in a sequence. */
  function Names(names: seq<string>): (r: set<string>)
    ensures forall n :: n in r <==> n in names
  {
    if names == [] then {} else Names(names[..|names| - 1]) + {names[|names| - 1]}
  }

  // ---------------------------------------------------------------------------
  // Requests waiting for a variable's value

  type Waiting = map<(NodeId, nat), set<HttpRequest>>

  /** `pendingVariables[(node, start)]`: an address without an entry has no waiters. */
  function HeldIn(pending: Waiting, address: (NodeId, nat)): set<HttpRequest> {
    if address in pending then pending[address] else {}
  }

  /** The waiters after `pendingVariables[(node, start)].insert(request)`. */
  function HoldIn(pending: Waiting, node: NodeId, start: nat, request: HttpRequest): (r: Waiting)
    ensures HeldIn(r, (node, start)) == HeldIn(pending, (node, start)) + {request}
    ensures forall a :: a != (node, start) ==> HeldIn(r, a) == HeldIn(pending, a)
  {
    pending[(node, start) := HeldIn(pending, (node, start)) + {request}]
  }

  // ---------------------------------------------------------------------------
  // Response queues, one FIFO list per connection

  type Queues = map<StreamId, seq<HttpRequest>>

  /** `pendingResponses[stream]`: a stream without an entry has an empty queue. */
  function QueueOf(queues: Queues, stream: StreamId): seq<HttpRequest> {
    if stream in queues then queues[stream] else []
  }

  /** `std::list::remove`: every occurrence of `x` goes, the rest keep their order. */
  function RemoveAll<T(==)>(q: seq<T>, x: T): (r: seq<T>)
    ensures x !in r
    ensures |r| <= |q|
    ensures forall y :: y in r ==> y in q
  {
    if q == [] then []
    else if q[0] == x then RemoveAll(q[1..], x)
    else [q[0]] + RemoveAll(q[1..], x)
  }

  /** The queues after `scheduleResponse(stream, request)`. */
  function Scheduled(queues: Queues, stream: StreamId, request: HttpRequest): (r: Queues)
    ensures r.Keys == queues.Keys + {stream}
  {
    queues[stream := QueueOf(queues, stream) + [request]]
  }

  /** The queues after `unscheduleResponse(stream, request)`. */
  function Unscheduled(queues: Queues, stream: StreamId, request: HttpRequest): (r: Queues)
    ensures r.Keys == queues.Keys + {stream}
  {
    queues[stream := RemoveAll(QueueOf(queues, stream), request)]
  }

  /** The queues after `unscheduleAllResponses(stream)`. */
  function UnscheduledAll(queues: Queues, stream: StreamId): (r: Queues)
    ensures r.Keys == queues.Keys + {stream}
  {
    queues[stream := []]
  }

  /** Scheduling puts the request at the tail of its own stream's queue and touches no other queue. */
  lemma ScheduleAppends(queues: Queues, stream: StreamId, request: HttpRequest, other: StreamId)
    ensures QueueOf(Scheduled(queues, stream, request), stream) == QueueOf(queues, stream) + [request]
    ensures other != stream ==> QueueOf(Scheduled(queues, stream, request), other) == QueueOf(queues, other)
  {
  }

  /** Unscheduling drops the request from its stream's queue, keeps the rest in order, and touches no other queue. */
  lemma UnscheduleKeepsOthers(queues: Queues, stream: StreamId, request: HttpRequest, other: StreamId)
    ensures request !in QueueOf(Unscheduled(queues, stream, request), stream)
    ensures QueueOf(Unscheduled(queues, stream, request), stream) == RemoveAll(QueueOf(queues, stream), request)
    ensures other != stream ==> QueueOf(Unscheduled(queues, stream, request), other) == QueueOf(queues, other)
  {
  }

  /** Removing what is not there changes nothing. */
  lemma {:induction false} RemoveAbsent<T>(q: seq<T>, x: T)
    requires x !in q
    ensures RemoveAll(q, x) == q
  {
    if q != [] {
      RemoveAbsent(q[1..], x);
      assert q == [q[0]] + q[1..];
    }
  }

  /** Removing distributes over concatenation, so the order of what is kept is the original order. */
  lemma {:induction false} RemoveAppend<T>(a: seq<T>, b: seq<T>, x: T)
    ensures RemoveAll(a + b, x) == RemoveAll(a, x) + RemoveAll(b, x)
  {
    if a == [] {
      assert a + b == b;
    } else {
      assert (a + b)[1..] == a[1..] + b;
      RemoveAppend(a[1..], b, x);
    }
  }

  /** Every other element keeps its number of occurrences. */
  lemma {:induction false} RemoveCounts<T>(q: seq<T>, x: T, y: T)
    requires y != x
    ensures multiset(RemoveAll(q, x))[y] == multiset(q)[y]
  {
    if q != [] {
      RemoveCounts(q[1..], x, y);
      assert q == [q[0]] + q[1..];
    }
  }

  /** A request not in its stream's queue is unscheduled without effect on the queue. */
  lemma UnscheduleAbsent(queues: Queues, stream: StreamId, request: HttpRequest)
    requires request !in QueueOf(queues, stream)
    ensures QueueOf(Unscheduled(queues, stream, request), stream) == QueueOf(queues, stream)
  {
    RemoveAbsent(QueueOf(queues, stream), request);
  }

  /** Unscheduling the same request twice is the same as once. */
  lemma UnscheduleIdempotent(queues: Queues, stream: StreamId, request: HttpRequest)
    ensures Unscheduled(Unscheduled(queues, stream, request), stream, request) == Unscheduled(queues, stream, request)
  {
    var once := Unscheduled(queues, stream, request);
    UnscheduleAbsent(once, stream, request);
  }

  lemma UnscheduleAllEmpties(queues: Queues, stream: StreamId, other: StreamId)
    ensures QueueOf(UnscheduledAll(queues, stream), stream) == []
    ensures other != stream ==> QueueOf(UnscheduledAll(queues, stream), other) == QueueOf(queues, other)
  {
  }

  /**
   * The queue test: two requests on one stream and three on another, then
   * unscheduling the middle one, the first one three times, the last one, and
   * finally everything on the second stream.
   */
  lemma QueueScenario(s1: StreamId, s2: StreamId, r11: HttpRequest, r12: HttpRequest,
                      r21: HttpRequest, r22: HttpRequest, r23: HttpRequest)
    requires s1 != s2
    requires r11 != r12 && r21 != r22 && r22 != r23 && r21 != r23
    ensures var q := Scheduled(Scheduled(Scheduled(Scheduled(Scheduled(map[], s1, r11), s1, r12), s2, r21), s2, r22), s2, r23);
      && QueueOf(q, s1) == [r11, r12]
      && QueueOf(q, s2) == [r21, r22, r23]
      && var u := Unscheduled(q, s2, r22);
      && QueueOf(u, s2) == [r21, r23]
      && var v := Unscheduled(Unscheduled(Unscheduled(u, s1, r11), s1, r11), s1, r11);
      && QueueOf(v, s1) == [r12]
      && var w := Unscheduled(v, s1, r12);
      && QueueOf(w, s1) == []
      && |QueueOf(w, s2)| == 2
      && QueueOf(UnscheduledAll(w, s2), s2) == []
  {
    var q := Scheduled(Scheduled(Scheduled(Scheduled(Scheduled(map[], s1, r11), s1, r12), s2, r21), s2, r22), s2, r23);
    assert QueueOf(q, s1) == [r11, r12];
    assert QueueOf(q, s2) == [r21, r22, r23];
    var u := Unscheduled(q, s2, r22);
    assert RemoveAll([r23], r22) == [r23];
    assert RemoveAll([r22, r23], r22) == [r23];
    assert QueueOf(u, s2) == [r21, r23];
    var u1 := Unscheduled(u, s1, r11);
    assert RemoveAll([r12], r11) == [r12];
    assert QueueOf(u1, s1) == [r12];
    UnscheduleIdempotent(u, s1, r11);
    UnscheduleIdempotent(u1, s1, r11);
    var v := Unscheduled(Unscheduled(u1, s1, r11), s1, r11);
    assert QueueOf(v, s1) == [r12];
    var w := Unscheduled(v, s1, r12);
    assert QueueOf(w, s1) == [];
    assert QueueOf(w, s2) == [r21, r23];
  }

  // ---------------------------------------------------------------------------
  // The interface object

  class HttpInterface {
    /** `pendingResponses`: per connection, the requests in the order their responses must go out. */
    var pendingResponses: Queues
    /** `pendingVariables`: per (node, address), the requests waiting for that variable's value. */
    var pendingVariables: Waiting
    /** `eventSubscriptions`: per long-lived request, the event names it listens to (`*` for all). */
    var eventSubscriptions: map<HttpRequest, set<string>>
    /** `nodesDescriptions`, in the order `std::map` iterates it; the model does not require the ids to increase. */
    var nodesDescriptions: seq<(NodeId, NodeDescription)>
    /**
     * `allVariables`: per node, the compiled variables map, in the order
     * `std::map` iterates it. The model does not require the ids to
     * increase: "after the node" in `NamedVariablesAsWritten` means later in
     * this sequence.
     */
    var allVariables: seq<(NodeId, seq<VariableEntry>)>
    /** `commonDefinitions`: per node, the definitions of its AESL file. */
    var commonDefinitions: map<NodeId, CommonDefinitions>
    /** `asebaStreams`: each connection to an Aseba network and the node id behind it. */
    var asebaStreams: seq<(StreamId, NodeId)>
    /** What was sent to the nodes, oldest first. */
    var actions: seq<Action>

    constructor ()
      ensures pendingResponses == map[] && pendingVariables == map[] && eventSubscriptions == map[]
      ensures nodesDescriptions == [] && allVariables == [] && commonDefinitions == map[]
      ensures asebaStreams == [] && actions == []
    {
      pendingResponses := map[];
      pendingVariables := map[];
      eventSubscriptions := map[];
      nodesDescriptions := [];
      allVariables := [];
      commonDefinitions := map[];
      asebaStreams := [];
      actions := [];
    }

    /** `eventSubscriptions[request]`: a request without an entry listens to nothing. */
    function SubscriptionsOf(request: HttpRequest): set<string>
      reads this
    {
      if request in eventSubscriptions then eventSubscriptions[request] else {}
    }

    /** Insert every name into `eventSubscriptions[request]`, one `insert` at a time. */
    method Subscribe(request: HttpRequest, names: seq<string>)
      modifies this`eventSubscriptions
      ensures eventSubscriptions == old(eventSubscriptions)[request := old(SubscriptionsOf(request)) + Names(names)]
    {
      var subscribed := SubscriptionsOf(request);
      var i := 0;
      while i < |names|
        invariant 0 <= i <= |names|
        invariant subscribed == old(SubscriptionsOf(request)) + Names(names[..i])
      {
        assert names[..i + 1][..i] == names[..i];
        subscribed := subscribed + {names[i]};
        i := i + 1;
      }
      assert names[..i] == names;
      eventSubscriptions := eventSubscriptions[request := subscribed];
    }

    /** `pendingVariables[(node, start)].insert(request)`. */
    method Hold(node: NodeId, start: nat, request: HttpRequest)
      modifies this`pendingVariables
      ensures pendingVariables == HoldIn(old(pendingVariables), node, start, request)
    {
      pendingVariables := pendingVariables[(node, start) := HeldIn(pendingVariables, (node, start)) + {request}];
    }

    /** `scheduleResponse`: queue the request behind the others of its connection. */
    method ScheduleResponse(stream: StreamId, request: HttpRequest)
      modifies this`pendingResponses
      ensures pendingResponses == Scheduled(old(pendingResponses), stream, request)
    {
      var queue := QueueOf(pendingResponses, stream);
      pendingResponses := pendingResponses[stream := queue + [request]];
    }

    /** `unscheduleResponse`: walk the connection's list and unlink every occurrence of the request. */
    method UnscheduleResponse(stream: StreamId, request: HttpRequest)
      modifies this`pendingResponses
      ensures pendingResponses == Unscheduled(old(pendingResponses), stream, request)
    {
      var queue := QueueOf(pendingResponses, stream);
      assert queue[..0] == [];
      var kept: seq<HttpRequest> := [];
      var i := 0;
      while i < |queue|
        invariant 0 <= i <= |queue|
        invariant kept == RemoveAll(queue[..i], request)
        invariant pendingResponses == old(pendingResponses)
      {
        assert RemoveAll([queue[i]], request) == if queue[i] == request then [] else [queue[i]];
        RemoveAppend(queue[..i], [queue[i]], request);
        assert queue[..i + 1] == queue[..i] + [queue[i]];
        if queue[i] != request {
          kept := kept + [queue[i]];
        }
        i := i + 1;
      }
      assert queue[..i] == queue;
      pendingResponses := pendingResponses[stream := kept];
    }

    /** `unscheduleAllResponses`: empty the connection's queue. */
    method UnscheduleAllResponses(stream: StreamId)
      modifies this`pendingResponses
      ensures pendingResponses == UnscheduledAll(old(pendingResponses), stream)
    {
      pendingResponses := pendingResponses[stream := []];
    }

    /** Append to the log of what is sent to the nodes. */
    method Emit(action: Action)
      modifies this`actions
      ensures actions == old(actions) + [action]
    {
      actions := actions + [action];
    }
  }
}
