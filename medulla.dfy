/**
 * Medulla, the bridge between an Aseba network and D-Bus: the conversions
 * between D-Bus value lists and Aseba vectors, the D-Bus network object
 * (pending variable waiting, event filters, node names, name resolution) and the
 * hub's forwarding rule. D-Bus replies and signals are recorded in the output
 * log `bus`; the messages handed to the hub for sending are recorded in `sent`.
 */
module Medulla {
  import opened Wrappers
  import opened CLib
  import opened AsebaTypes

  /** `Values`, the D-Bus list of signed 16-bit integers. */
  type Values = seq<int16>

  /** An `EventFilterInterface` object, identified by the counter value it was created with. */
  type FilterId = nat

  /** A D-Bus method call, identified so that its reply or error can be recorded. */
  type CallId = nat

  /** `unsigned(-1)`, the position that stands for "not found yet". */
  const NoPos: nat := 0xFFFF_FFFF

  /** Conversion of an index to `quint16`. */
  function U16(x: nat): (r: nat)
    ensures r < 0x1_0000
    ensures x < 0x1_0000 ==> r == x
  {
    x % 0x1_0000
  }

  // ---------------------------------------------------------------------------
  // toAsebaVector / fromAsebaVector

  /** Copies a D-Bus value list into an Aseba vector, element by element. */
  method ToAsebaVector(values: Values) returns (data: seq<int16>)
    ensures |data| == |values|
    ensures forall i :: 0 <= i < |values| ==> data[i] == values[i]
  {
    data := [];
    var i := 0;
    while i < |values|
      invariant 0 <= i <= |values|
      invariant data == values[..i]
    {
      data := data + [values[i]];
      i := i + 1;
    }
  }

  /** Copies an Aseba vector into a D-Bus value list, element by element. */
  method FromAsebaVector(values: seq<int16>) returns (data: Values)
    ensures |data| == |values|
    ensures forall i :: 0 <= i < |values| ==> data[i] == values[i]
  {
    data := [];
    var i := 0;
    while i < |values|
      invariant 0 <= i <= |values|
      invariant data == values[..i]
    {
      data := data + [values[i]];
      i := i + 1;
    }
  }

  /** Converting to an Aseba vector and back gives the original list. */
  method VectorRoundTrip(values: Values) returns (back: Values)
    ensures back == values
  {
    var data := ToAsebaVector(values);
    back := FromAsebaVector(data);
  }

  // ---------------------------------------------------------------------------
  // Pending waiting

  /** The bookkeeping of one `GetVariable` call waiting for its `Variables` reply. */
  datatype RequestData = RequestData(nodeId: NodeId, pos: nat, reply: CallId)

  predicate Waits(r: RequestData, nodeId: NodeId, pos: nat) {
    r.nodeId == nodeId && r.pos == pos
  }

  /** The index of the first pending read waiting on (`nodeId`, `pos`). */
  function FirstWaiting(waiting: seq<RequestData>, nodeId: NodeId, pos: nat): (r: Option<nat>)
    ensures r.Some? ==> r.value < |waiting| && Waits(waiting[r.value], nodeId, pos)
    ensures r.Some? ==> forall j :: 0 <= j < r.value ==> !Waits(waiting[j], nodeId, pos)
    ensures r.None? ==> forall j :: 0 <= j < |waiting| ==> !Waits(waiting[j], nodeId, pos)
  {
    if waiting == [] then None
    else if Waits(waiting[0], nodeId, pos) then Some(0)
    else match FirstWaiting(waiting[1..], nodeId, pos)
      case None => None
      case Some(i) => Some(i + 1)
  }

  /** The pending waiting left after a `Variables` reply for (`nodeId`, `pos`). */
  function AfterReply(waiting: seq<RequestData>, nodeId: NodeId, pos: nat): seq<RequestData> {
    match FirstWaiting(waiting, nodeId, pos)
    case None => waiting
    case Some(i) => waiting[..i] + waiting[i + 1..]
  }

  /** How many pending waiting wait on (`nodeId`, `pos`). */
  function CountWaiting(waiting: seq<RequestData>, nodeId: NodeId, pos: nat): nat {
    if waiting == [] then 0
    else (if Waits(waiting[0], nodeId, pos) then 1 else 0) + CountWaiting(waiting[1..], nodeId, pos)
  }

  /** The pending reads that do not wait on (`nodeId`, `pos`), in order. */
  function OthersThan(waiting: seq<RequestData>, nodeId: NodeId, pos: nat): seq<RequestData> {
    if waiting == [] then []
    else (if Waits(waiting[0], nodeId, pos) then [] else [waiting[0]]) + OthersThan(waiting[1..], nodeId, pos)
  }

  /** Past a read that waits on another address, the reply acts on the rest. */
  lemma AfterReplySkip(waiting: seq<RequestData>, nodeId: NodeId, pos: nat)
    requires waiting != [] && !Waits(waiting[0], nodeId, pos)
    ensures AfterReply(waiting, nodeId, pos) == [waiting[0]] + AfterReply(waiting[1..], nodeId, pos)
  {
    match FirstWaiting(waiting[1..], nodeId, pos)
    case None =>
    case Some(i) =>
      assert waiting[..i + 1] == [waiting[0]] + waiting[1..][..i];
      assert waiting[i + 2..] == waiting[1..][i + 1..];
  }

  /**
   * A reply answers exactly one waiter when there is one: the other waiters on
   * the same address stay pending (they are not merged).
   */
  lemma {:induction false} ReplyAnswersOneWaiter(waiting: seq<RequestData>, nodeId: NodeId, pos: nat)
    ensures CountWaiting(AfterReply(waiting, nodeId, pos), nodeId, pos)
            == if CountWaiting(waiting, nodeId, pos) > 0 then CountWaiting(waiting, nodeId, pos) - 1 else 0
  {
    if waiting != [] {
      var rest := waiting[1..];
      ReplyAnswersOneWaiter(rest, nodeId, pos);
      if Waits(waiting[0], nodeId, pos) {
        assert AfterReply(waiting, nodeId, pos) == rest;
      } else {
        AfterReplySkip(waiting, nodeId, pos);
        var after := AfterReply(rest, nodeId, pos);
        assert ([waiting[0]] + after)[1..] == after;
      }
    }
  }

  /** A reply leaves the reads waiting on other addresses, in their order. */
  lemma {:induction false} ReplyKeepsOthers(waiting: seq<RequestData>, nodeId: NodeId, pos: nat)
    ensures OthersThan(AfterReply(waiting, nodeId, pos), nodeId, pos) == OthersThan(waiting, nodeId, pos)
  {
    if waiting != [] {
      var rest := waiting[1..];
      ReplyKeepsOthers(rest, nodeId, pos);
      if Waits(waiting[0], nodeId, pos) {
        assert AfterReply(waiting, nodeId, pos) == rest;
      } else {
        AfterReplySkip(waiting, nodeId, pos);
        var after := AfterReply(rest, nodeId, pos);
        assert ([waiting[0]] + after)[1..] == after;
      }
    }
  }

  /** A reply finds a waiter exactly when some read waits on its address. */
  lemma {:induction false} WaiterFoundIffWaiting(waiting: seq<RequestData>, nodeId: NodeId, pos: nat)
    ensures FirstWaiting(waiting, nodeId, pos).Some? <==> CountWaiting(waiting, nodeId, pos) > 0
  {
    if waiting != [] {
      WaiterFoundIffWaiting(waiting[1..], nodeId, pos);
    }
  }

  // ---------------------------------------------------------------------------
  // Event filters: the `QMultiMap<quint16, EventFilterInterface*>`

  /** One (event, filter) pair of the multimap. */
  datatype FilterEntry = FilterEntry(event: nat, filter: FilterId)

  /**
   * `eventsFilters.values(event)`: the filters registered under `event`, the
   * most recently inserted first (insertion puts new pairs at the front).
   */
  function FiltersOf(entries: seq<FilterEntry>, event: nat): seq<FilterId> {
    if entries == [] then []
    else (if entries[0].event == event then [entries[0].filter] else []) + FiltersOf(entries[1..], event)
  }

  /** A filter receives an event once for every pair registering it under that event. */
  lemma {:induction false} FiltersOfCount(entries: seq<FilterEntry>, event: nat, f: FilterId)
    ensures multiset(FiltersOf(entries, event))[f] == multiset(entries)[FilterEntry(event, f)]
  {
    if entries != [] {
      FiltersOfCount(entries[1..], event, f);
      assert entries == [entries[0]] + entries[1..];
    }
  }

  /** `QMultiMap::remove(key, value)`: every pair equal to `e` goes, the rest stays in order. */
  function RemoveEntry(entries: seq<FilterEntry>, e: FilterEntry): (r: seq<FilterEntry>)
    ensures e !in r
    ensures forall x :: x != e ==> multiset(r)[x] == multiset(entries)[x]
  {
    if entries == [] then []
    else
      assert entries == [entries[0]] + entries[1..];
      (if entries[0] == e then [] else [entries[0]]) + RemoveEntry(entries[1..], e)
  }

  /** `eventsFilters` without any pair naming `f`, the rest in order. */
  function WithoutFilter(entries: seq<FilterEntry>, f: FilterId): (r: seq<FilterEntry>)
    ensures forall x :: x in r ==> x.filter != f
    ensures forall x: FilterEntry :: x.filter != f ==> multiset(r)[x] == multiset(entries)[x]
  {
    if entries == [] then []
    else
      assert entries == [entries[0]] + entries[1..];
      (if entries[0].filter == f then [] else [entries[0]]) + WithoutFilter(entries[1..], f)
  }

  /** `eventsFilters.keys(f)`: the events under which `f` is registered (with repeats). */
  function EventsOf(entries: seq<FilterEntry>, f: FilterId): (r: seq<nat>)
    ensures forall e :: FilterEntry(e, f) in entries ==> e in r
  {
    if entries == [] then []
    else (if entries[0].filter == f then [entries[0].event] else []) + EventsOf(entries[1..], f)
  }

  /** `entries` without the pairs of `f` whose event is in `done`. */
  function WithoutEvents(entries: seq<FilterEntry>, f: FilterId, done: set<nat>): seq<FilterEntry> {
    if entries == [] then []
    else
      (if entries[0].filter == f && entries[0].event in done then [] else [entries[0]])
      + WithoutEvents(entries[1..], f, done)
  }

  lemma {:induction false} WithoutNoEvents(entries: seq<FilterEntry>, f: FilterId)
    ensures WithoutEvents(entries, f, {}) == entries
  {
    if entries != [] {
      WithoutNoEvents(entries[1..], f);
    }
  }

  lemma {:induction false} RemoveOneMoreEvent(entries: seq<FilterEntry>, f: FilterId, done: set<nat>, e: nat)
    ensures RemoveEntry(WithoutEvents(entries, f, done), FilterEntry(e, f))
            == WithoutEvents(entries, f, done + {e})
  {
    if entries != [] {
      RemoveOneMoreEvent(entries[1..], f, done, e);
      var head := if entries[0].filter == f && entries[0].event in done then [] else [entries[0]];
      var rest := WithoutEvents(entries[1..], f, done);
      assert WithoutEvents(entries, f, done) == head + rest;
      if head == [] {
        assert head + rest == rest;
      } else {
        assert (head + rest)[1..] == rest;
      }
    }
  }

  lemma {:induction false} AllEventsRemoved(entries: seq<FilterEntry>, f: FilterId, done: set<nat>)
    requires forall e :: e in EventsOf(entries, f) ==> e in done
    ensures WithoutEvents(entries, f, done) == WithoutFilter(entries, f)
  {
    if entries != [] {
      assert forall e :: e in EventsOf(entries[1..], f) ==> e in EventsOf(entries, f);
      AllEventsRemoved(entries[1..], f, done);
      if entries[0].filter == f {
        assert entries[0].event in EventsOf(entries, f);
      }
    }
  }

  // ---------------------------------------------------------------------------
  // Name resolution

  /** A compiled user-defined variable: (position, size) in `Compiler::VariablesMap`. */
  datatype VarInfo = VarInfo(pos: nat, size: nat)

  /** The variable as the node's compiled script declares it. */
  function UserVariable(users: map<string, map<string, VarInfo>>, node: string, variable: string): Option<VarInfo> {
    if node in users && variable in users[node] then Some(users[node][variable]) else None
  }

  /** `getVariablePos` and `getVariableSize` together: the variable in the node's description. */
  function DescribedVariable(descriptions: map<NodeId, NodeDescription>, nodeId: NodeId, variable: string): Option<VarInfo> {
    if nodeId !in descriptions then None
    else match FindVariable(descriptions[nodeId].namedVariables, variable)
      case None => None
      case Some(v) => Some(VarInfo(v.pos, v.size))
  }

  /**
   * Where `SetVariable` and `GetVariable` find a variable: the user-defined map
   * first; the node description only when the user map does not give a
   * position (the name is absent there, or its position is the sentinel).
   */
  function ResolveVariable(users: map<string, map<string, VarInfo>>, descriptions: map<NodeId, NodeDescription>,
                           node: string, nodeId: NodeId, variable: string): (r: Option<VarInfo>)
    ensures UserVariable(users, node, variable).Some? && UserVariable(users, node, variable).value.pos != NoPos
            ==> r == UserVariable(users, node, variable)
    ensures UserVariable(users, node, variable).None? ==> r == DescribedVariable(descriptions, nodeId, variable)
    ensures r.Some? ==> r == UserVariable(users, node, variable) || r == DescribedVariable(descriptions, nodeId, variable)
    ensures r.None? <==> (UserVariable(users, node, variable).None? || UserVariable(users, node, variable).value.pos == NoPos)
                         && DescribedVariable(descriptions, nodeId, variable).None?
  {
    match UserVariable(users, node, variable)
    case Some(u) =>
      if u.pos != NoPos then Some(u) else DescribedVariable(descriptions, nodeId, variable)
    case None => DescribedVariable(descriptions, nodeId, variable)
  }

  /** The name given to an event on D-Bus: its entry in the event table, or "?" when there is none. */
  function EventName(events: seq<NamedValue>, event: nat): (name: string)
    ensures event < |events| ==> name == events[event].name
    ensures event >= |events| ==> name == "?"
  {
    if event < |events| then events[event].name else "?"
  }

  function NodeMissing(node: string): string {
    "node " + node + " does not exists"
  }

  function VariableMissing(variable: string, node: string): string {
    "variable " + variable + " does not exists in node " + node
  }

  function EventMissing(name: string): string {
    "no event named " + name
  }

  /** What the network object sends on D-Bus. */
  datatype BusOutput =
    | ErrorReply(call: CallId, message: string)
    | MethodReply(call: CallId, values: Values)
    | EventSignal(filter: FilterId, event: nat, name: string, data: Values)
    | ObjectRegistered(path: string, filter: FilterId)

  /** The signals `sendEventOnDBus` emits, one per filter, in the order given. */
  function Signals(filters: seq<FilterId>, event: nat, name: string, data: Values): (r: seq<BusOutput>)
    ensures |r| == |filters|
    ensures forall i :: 0 <= i < |filters| ==> r[i] == EventSignal(filters[i], event, name, data)
  {
    if filters == [] then [] else [EventSignal(filters[0], event, name, data)] + Signals(filters[1..], event, name, data)
  }

  // ---------------------------------------------------------------------------
  // Key order of `std::map` and `QMap` over strings

  /** `a` sorts before `b`: character codes compared from the left, a proper prefix first. */
  predicate Precedes(a: string, b: string)
    decreases |a|
  {
    if a == [] then b != []
    else b != [] && (a[0] < b[0] || (a[0] == b[0] && Precedes(a[1..], b[1..])))
  }

  /** No string precedes itself. */
  lemma {:induction false} PrecedesIrreflexive(a: string)
    ensures !Precedes(a, a)
    decreases |a|
  {
    if a != [] {
      PrecedesIrreflexive(a[1..]);
    }
  }

  /** Of two different strings, one precedes the other. */
  lemma {:induction false} PrecedesTotal(a: string, b: string)
    requires a != b
    ensures Precedes(a, b) || Precedes(b, a)
    decreases |a|
  {
    if a != [] && b != [] && a[0] == b[0] {
      assert a == [a[0]] + a[1..] && b == [b[0]] + b[1..];
      PrecedesTotal(a[1..], b[1..]);
    }
  }

  /** The order is transitive. */
  lemma {:induction false} PrecedesTransitive(a: string, b: string, c: string)
    requires Precedes(a, b) && Precedes(b, c)
    ensures Precedes(a, c)
    decreases |a|
  {
    if a != [] && a[0] == b[0] && b[0] == c[0] {
      PrecedesTransitive(a[1..], b[1..], c[1..]);
    }
  }

  /** A non-empty finite set of strings has a first key. */
  lemma {:induction false} FirstKeyExists(keys: set<string>)
    requires keys != {}
    ensures exists m :: m in keys && forall k :: k in keys && k != m ==> Precedes(m, k)
    decreases |keys|
  {
    var x :| x in keys;
    var others := keys - {x};
    if others == {} {
      assert keys == {x} by {
        forall k | k in keys
          ensures k == x
        {
          assert k !in others;
        }
      }
    } else {
      FirstKeyExists(others);
      var m :| m in others && forall k :: k in others && k != m ==> Precedes(m, k);
      PrecedesTotal(x, m);
      if Precedes(x, m) {
        forall k | k in keys && k != x
          ensures Precedes(x, k)
        {
          if k != m {
            PrecedesTransitive(x, m, k);
          }
        }
      } else {
        assert forall k :: k in keys && k != m ==> Precedes(m, k);
      }
    }
  }

  /** The keys of a map in the order `std::map` and `QMap` iterate them. */
  method KeysInOrder<V>(m: map<string, V>) returns (keys: seq<string>)
    ensures |keys| == |m|
    ensures forall k :: k in keys <==> k in m
    ensures forall i, j :: 0 <= i < j < |keys| ==> Precedes(keys[i], keys[j])
  {
    keys := [];
    var rest := m.Keys;
    while rest != {}
      invariant rest <= m.Keys
      invariant |keys| + |rest| == |m.Keys|
      invariant forall k :: k in keys <==> k in m && k !in rest
      invariant forall i, j :: 0 <= i < j < |keys| ==> Precedes(keys[i], keys[j])
      invariant forall i, k :: 0 <= i < |keys| && k in rest ==> Precedes(keys[i], k)
      decreases |rest|
    {
      FirstKeyExists(rest);
      var first :| first in rest && forall k :: k in rest && k != first ==> Precedes(first, k);
      keys := keys + [first];
      rest := rest - {first};
    }
    assert |m.Keys| == |m|;
  }

  // ---------------------------------------------------------------------------
  // The D-Bus network object

  class AsebaNetworkInterface {
    /** The `GetVariable` calls waiting for a reply, oldest first. */
    var pendingReads: seq<RequestData>
    /** The (event, filter) multimap, most recent insertion first. */
    var eventsFilters: seq<FilterEntry>
    var eventsFiltersCounter: nat
    /** Node name to node id, written when a description arrives. */
    var nodesNames: map<string, NodeId>
    /** The descriptions the descriptions manager has received. */
    var nodesDescriptions: map<NodeId, NodeDescription>
    /** Per node name, the variables its loaded script declares. */
    var userDefinedVariablesMap: map<string, map<string, VarInfo>>
    /** `commonDefinitions.events`: event id to name. */
    var events: seq<NamedValue>
    /** Everything sent on D-Bus, in order. */
    var bus: seq<BusOutput>
    /** Every message given to the hub for sending, in order. */
    var sent: seq<Message>

    /** Every known node name refers to a node whose description is stored. */
    ghost predicate Valid()
      reads this
    {
      forall name :: name in nodesNames ==> nodesNames[name] in nodesDescriptions
    }

    constructor ()
      ensures Valid()
      ensures pendingReads == [] && eventsFilters == [] && eventsFiltersCounter == 0
      ensures nodesNames == map[] && nodesDescriptions == map[] && userDefinedVariablesMap == map[]
      ensures events == [] && bus == [] && sent == []
    {
      pendingReads := [];
      eventsFilters := [];
      eventsFiltersCounter := 0;
      nodesNames := map[];
      nodesDescriptions := map[];
      userDefinedVariablesMap := map[];
      events := [];
      bus := [];
      sent := [];
    }

    /** `processMessage`: forward to the hub, then a user message goes to the event filters and a `Variables` reply to the pending waiting. */
    method ProcessMessage(message: Message)
      requires Valid()
      modifies this`bus, this`sent, this`pendingReads
      ensures Valid()
      ensures message.UserMessage? ==>
        pendingReads == old(pendingReads) && sent == old(sent) + [message]
        && bus == old(bus) + Signals(FiltersOf(eventsFilters, message.eventType), message.eventType,
                                     EventName(events, message.eventType), message.data)
      ensures message.Variables? ==>
        pendingReads == AfterReply(old(pendingReads), message.source, message.start) && sent == old(sent) + [message]
        && bus == old(bus) + match FirstWaiting(old(pendingReads), message.source, message.start)
                             case None => []
                             case Some(i) => [MethodReply(old(pendingReads)[i].reply, message.values)]
      ensures !message.UserMessage? && !message.Variables? ==>
        pendingReads == old(pendingReads) && bus == old(bus) && sent == old(sent) + [message]
    {
      sent := sent + [message];
      if message.UserMessage? {
        var data := FromAsebaVector(message.data);
        assert data == message.data;
        SendEventOnDBus(message.eventType, data);
      } else if message.Variables? {
        ProcessVariables(message.source, message.start, message.values);
      }
    }

    /** The `Variables` branch of `processMessage`: answer and drop the first matching pending read. */
    method ProcessVariables(nodeId: NodeId, pos: nat, variables: seq<int16>)
      modifies this`bus, this`pendingReads
      ensures pendingReads == AfterReply(old(pendingReads), nodeId, pos)
      ensures bus == old(bus) + match FirstWaiting(old(pendingReads), nodeId, pos)
                                case None => []
                                case Some(i) => [MethodReply(old(pendingReads)[i].reply, variables)]
    {
      var i := 0;
      while i < |pendingReads|
        invariant 0 <= i <= |pendingReads|
        invariant pendingReads == old(pendingReads) && bus == old(bus)
        invariant forall j :: 0 <= j < i ==> !Waits(pendingReads[j], nodeId, pos)
      {
        var request := pendingReads[i];
        if request.nodeId == nodeId && request.pos == pos {
          var values := FromAsebaVector(variables);
          bus := bus + [MethodReply(request.reply, values)];
          pendingReads := pendingReads[..i] + pendingReads[i + 1..];
          assert values == variables;
          return;
        }
        i := i + 1;
      }
    }

    /** `sendEventOnDBus`: one signal to every filter registered under `event`. */
    method SendEventOnDBus(event: nat, data: Values)
      modifies this`bus
      ensures bus == old(bus) + Signals(FiltersOf(eventsFilters, event), event, EventName(events, event), data)
    {
      var filters := FiltersOf(eventsFilters, event);
      var name := EventName(events, event);
      var i := 0;
      while i < |filters|
        invariant 0 <= i <= |filters|
        invariant bus == old(bus) + Signals(filters[..i], event, name, data)
      {
        assert filters[..i + 1] == filters[..i] + [filters[i]];
        SignalsAppend(filters[..i], filters[i], event, name, data);
        bus := bus + [EventSignal(filters[i], event, name, data)];
        i := i + 1;
      }
      assert filters[..i] == filters;
    }

    method ListenEvent(filter: FilterId, event: nat)
      modifies this`eventsFilters
      ensures eventsFilters == [FilterEntry(event, filter)] + old(eventsFilters)
      ensures FiltersOf(eventsFilters, event) == [filter] + FiltersOf(old(eventsFilters), event)
      ensures forall e :: e != event ==> FiltersOf(eventsFilters, e) == FiltersOf(old(eventsFilters), e)
    {
      eventsFilters := [FilterEntry(event, filter)] + eventsFilters;
    }

    method IgnoreEvent(filter: FilterId, event: nat)
      modifies this`eventsFilters
      ensures eventsFilters == RemoveEntry(old(eventsFilters), FilterEntry(event, filter))
      ensures FilterEntry(event, filter) !in eventsFilters
      ensures forall x :: x != FilterEntry(event, filter) ==> multiset(eventsFilters)[x] == multiset(old(eventsFilters))[x]
    {
      eventsFilters := RemoveEntry(eventsFilters, FilterEntry(event, filter));
    }

    /** `filterDestroyed`: remove the filter under every event it is registered for. */
    method FilterDestroyed(filter: FilterId)
      modifies this`eventsFilters
      ensures eventsFilters == WithoutFilter(old(eventsFilters), filter)
      ensures forall e :: FilterEntry(e, filter) !in eventsFilters
      ensures forall x: FilterEntry :: x.filter != filter ==> multiset(eventsFilters)[x] == multiset(old(eventsFilters))[x]
    {
      var keys := EventsOf(eventsFilters, filter);
      ghost var done: set<nat> := {};
      WithoutNoEvents(eventsFilters, filter);
      var i := 0;
      while i < |keys|
        invariant 0 <= i <= |keys|
        invariant forall j :: 0 <= j < i ==> keys[j] in done
        invariant eventsFilters == WithoutEvents(old(eventsFilters), filter, done)
      {
        RemoveOneMoreEvent(old(eventsFilters), filter, done, keys[i]);
        eventsFilters := RemoveEntry(eventsFilters, FilterEntry(keys[i], filter));
        done := done + {keys[i]};
        i := i + 1;
      }
      AllEventsRemoved(old(eventsFilters), filter, done);
    }

    /** `ListenEventName`: listen by name, or reply with an error when no event has that name. */
    method ListenEventName(filter: FilterId, name: string, call: CallId)
      modifies this`eventsFilters, this`bus
      ensures IndexOfName(events, name).Some? ==>
        eventsFilters == [FilterEntry(U16(IndexOfName(events, name).value), filter)] + old(eventsFilters) && bus == old(bus)
      ensures IndexOfName(events, name).None? ==>
        eventsFilters == old(eventsFilters) && bus == old(bus) + [ErrorReply(call, EventMissing(name))]
    {
      match IndexOfName(events, name)
      case Some(event) => ListenEvent(filter, U16(event));
      case None => bus := bus + [ErrorReply(call, EventMissing(name))];
    }

    /** `IgnoreEventName`: ignore by name, or reply with an error when no event has that name. */
    method IgnoreEventName(filter: FilterId, name: string, call: CallId)
      modifies this`eventsFilters, this`bus
      ensures IndexOfName(events, name).Some? ==>
        eventsFilters == RemoveEntry(old(eventsFilters), FilterEntry(U16(IndexOfName(events, name).value), filter)) && bus == old(bus)
      ensures IndexOfName(events, name).None? ==>
        eventsFilters == old(eventsFilters) && bus == old(bus) + [ErrorReply(call, EventMissing(name))]
    {
      match IndexOfName(events, name)
      case Some(event) => IgnoreEvent(filter, U16(event));
      case None => bus := bus + [ErrorReply(call, EventMissing(name))];
    }

    /** `GetNodesList`: every known node name, once each, in key order. */
    method GetNodesList() returns (list: seq<string>)
      ensures forall n :: n in list <==> n in nodesNames
      ensures |list| == |nodesNames|
      ensures forall i, j :: 0 <= i < j < |list| ==> Precedes(list[i], list[j])
    {
      list := KeysInOrder(nodesNames);
    }

    /** `GetVariablesList`: the node's described variables, then the names its script declares in key order. */
    method GetVariablesList(node: string) returns (list: seq<string>)
      requires Valid()
      ensures node !in nodesNames ==> list == []
      ensures node in nodesNames ==>
        var described := nodesDescriptions[nodesNames[node]].namedVariables;
        && |list| == |described| + (if node in userDefinedVariablesMap then |userDefinedVariablesMap[node]| else 0)
        && (forall i :: 0 <= i < |described| ==> list[i] == described[i].name)
        && (forall i :: |described| <= i < |list| ==> node in userDefinedVariablesMap && list[i] in userDefinedVariablesMap[node])
        && (node in userDefinedVariablesMap ==> forall v :: v in userDefinedVariablesMap[node] ==> v in list[|described|..])
        && (forall i, j :: |described| <= i < j < |list| ==> Precedes(list[i], list[j]))
    {
      if node !in nodesNames {
        return [];
      }
      var described := nodesDescriptions[nodesNames[node]].namedVariables;
      list := [];
      var i := 0;
      while i < |described|
        invariant 0 <= i <= |described|
        invariant |list| == i
        invariant forall j :: 0 <= j < i ==> list[j] == described[j].name
      {
        list := list + [described[i].name];
        i := i + 1;
      }
      if node in userDefinedVariablesMap {
        var added := KeysInOrder(userDefinedVariablesMap[node]);
        list := list + added;
        assert list[|described|..] == added;
      }
    }

    /** `SetVariable`: resolve the variable, then send `SetVariables`; an unknown node or variable gets an error reply. */
    method SetVariable(node: string, variable: string, data: Values, call: CallId)
      modifies this`bus, this`sent
      ensures node !in nodesNames ==>
        sent == old(sent) && bus == old(bus) + [ErrorReply(call, NodeMissing(node))]
      ensures node in nodesNames ==>
        var r := ResolveVariable(userDefinedVariablesMap, nodesDescriptions, node, nodesNames[node], variable);
        && (r.None? ==> sent == old(sent) && bus == old(bus) + [ErrorReply(call, VariableMissing(variable, node))])
        && (r.Some? ==> sent == old(sent) + [SetVariables(nodesNames[node], r.value.pos, data)] && bus == old(bus))
    {
      if node !in nodesNames {
        bus := bus + [ErrorReply(call, NodeMissing(node))];
        return;
      }
      var nodeId := nodesNames[node];
      var pos := NoPos;
      var user := UserVariable(userDefinedVariablesMap, node, variable);
      if user.Some? {
        pos := user.value.pos;
      }
      if pos == NoPos {
        var described := DescribedVariable(nodesDescriptions, nodeId, variable);
        if described.None? {
          bus := bus + [ErrorReply(call, VariableMissing(variable, node))];
          return;
        }
        pos := described.value.pos;
      }
      var vector := ToAsebaVector(data);
      assert vector == data;
      sent := sent + [SetVariables(nodeId, pos, vector)];
    }

    /**
     * `GetVariable`: resolve the variable, send one `GetVariables` and append one
     * pending read; an unknown node or variable gets an error reply and leaves
     * the pending waiting alone. The D-Bus reply itself is delayed.
     */
    method GetVariable(node: string, variable: string, call: CallId) returns (values: Values)
      modifies this`bus, this`sent, this`pendingReads
      ensures values == []
      ensures node !in nodesNames ==>
        sent == old(sent) && pendingReads == old(pendingReads) && bus == old(bus) + [ErrorReply(call, NodeMissing(node))]
      ensures node in nodesNames ==>
        var r := ResolveVariable(userDefinedVariablesMap, nodesDescriptions, node, nodesNames[node], variable);
        && (r.None? ==>
              sent == old(sent) && pendingReads == old(pendingReads)
              && bus == old(bus) + [ErrorReply(call, VariableMissing(variable, node))])
        && (r.Some? ==>
              sent == old(sent) + [GetVariables(nodesNames[node], r.value.pos, r.value.size)]
              && pendingReads == old(pendingReads) + [RequestData(nodesNames[node], r.value.pos, call)]
              && bus == old(bus))
    {
      values := [];
      if node !in nodesNames {
        bus := bus + [ErrorReply(call, NodeMissing(node))];
        return;
      }
      var nodeId := nodesNames[node];
      var pos := NoPos;
      var length := NoPos;
      var user := UserVariable(userDefinedVariablesMap, node, variable);
      if user.Some? {
        pos := user.value.pos;
        length := user.value.size;
      }
      if pos == NoPos {
        var described := DescribedVariable(nodesDescriptions, nodeId, variable);
        if described.None? {
          bus := bus + [ErrorReply(call, VariableMissing(variable, node))];
          return;
        }
        pos := described.value.pos;
        length := described.value.size;
      }
      sent := sent + [GetVariables(nodeId, pos, length)];
      pendingReads := pendingReads + [RequestData(nodeId, pos, call)];
    }

    /** `SendEvent`: signal the local filters, then send the user message on the network. */
    method SendEvent(event: nat, data: Values)
      modifies this`bus, this`sent
      ensures bus == old(bus) + Signals(FiltersOf(eventsFilters, event), event, EventName(events, event), data)
      ensures sent == old(sent) + [UserMessage(0, event, data)]
    {
      SendEventOnDBus(event, data);
      var vector := ToAsebaVector(data);
      assert vector == data;
      sent := sent + [UserMessage(0, event, vector)];
    }

    method SendEventName(name: string, data: Values, call: CallId)
      modifies this`bus, this`sent
      ensures IndexOfName(events, name).Some? ==>
        var event := U16(IndexOfName(events, name).value);
        && bus == old(bus) + Signals(FiltersOf(eventsFilters, event), event, EventName(events, event), data)
        && sent == old(sent) + [UserMessage(0, event, data)]
      ensures IndexOfName(events, name).None? ==>
        sent == old(sent) && bus == old(bus) + [ErrorReply(call, EventMissing(name))]
    {
      match IndexOfName(events, name)
      case Some(event) => SendEvent(U16(event), data);
      case None => bus := bus + [ErrorReply(call, EventMissing(name))];
    }

    /** `CreateEventFilter`: a new filter object at `/events_filters/<counter>`. */
    method CreateEventFilter() returns (path: string, filter: FilterId)
      modifies this`eventsFiltersCounter, this`bus
      ensures filter == old(eventsFiltersCounter) && eventsFiltersCounter == old(eventsFiltersCounter) + 1
      ensures path == "/events_filters/" + IntToDecimal(old(eventsFiltersCounter))
      ensures bus == old(bus) + [ObjectRegistered(path, filter)]
    {
      filter := eventsFiltersCounter;
      path := "/events_filters/" + IntToDecimal(eventsFiltersCounter);
      eventsFiltersCounter := eventsFiltersCounter + 1;
      bus := bus + [ObjectRegistered(path, filter)];
    }

    /**
     * `nodeDescriptionReceived`: record the node's name. The description is
     * read with `operator[]`, which creates an empty one for an unknown id.
     */
    method NodeDescriptionReceived(nodeId: NodeId)
      requires Valid()
      modifies this`nodesNames, this`nodesDescriptions
      ensures Valid()
      ensures nodeId in nodesDescriptions
      ensures old(nodeId in nodesDescriptions) ==> nodesDescriptions == old(nodesDescriptions)
      ensures old(nodeId !in nodesDescriptions) ==> nodesDescriptions == old(nodesDescriptions)[nodeId := EmptyDescription]
      ensures nodesNames == old(nodesNames)[nodesDescriptions[nodeId].name := nodeId]
    {
      if nodeId !in nodesDescriptions {
        nodesDescriptions := nodesDescriptions[nodeId := EmptyDescription];
      }
      nodesNames := nodesNames[nodesDescriptions[nodeId].name := nodeId];
    }

    /** The descriptions manager stores a received description, then calls `nodeDescriptionReceived`. */
    method DescriptionReceived(nodeId: NodeId, description: NodeDescription)
      requires Valid()
      modifies this`nodesNames, this`nodesDescriptions
      ensures Valid()
      ensures nodesDescriptions == old(nodesDescriptions)[nodeId := description]
      ensures nodesNames == old(nodesNames)[description.name := nodeId]
    {
      nodesDescriptions := nodesDescriptions[nodeId := description];
      NodeDescriptionReceived(nodeId);
    }
  }

  lemma SignalsAppend(filters: seq<FilterId>, f: FilterId, event: nat, name: string, data: Values)
    ensures Signals(filters + [f], event, name, data) == Signals(filters, event, name, data) + [EventSignal(f, event, name, data)]
  {
  }
  // ---------------------------------------------------------------------------
  // The hub's forwarding rule

  /** A Dashel data stream, identified by the order of the hub's stream set. */
  type StreamId = nat

  /**
   * The writes `Hub::sendMessage` performs, in stream order: every stream but
   * the source when forwarding, except those whose write fails.
   */
  function Deliveries(streams: seq<StreamId>, source: Option<StreamId>, forward: bool,
                      failing: set<StreamId>, message: Message): seq<(StreamId, Message)>
  {
    if streams == [] then []
    else
      (if (forward && source == Some(streams[0])) || streams[0] in failing then [] else [(streams[0], message)])
      + Deliveries(streams[1..], source, forward, failing, message)
  }

  lemma {:induction false} DeliveriesAppend(streams: seq<StreamId>, s: StreamId, source: Option<StreamId>, forward: bool,
                                            failing: set<StreamId>, message: Message)
    ensures Deliveries(streams + [s], source, forward, failing, message)
            == Deliveries(streams, source, forward, failing, message)
               + (if (forward && source == Some(s)) || s in failing then [] else [(s, message)])
  {
    if streams != [] {
      assert (streams + [s])[1..] == streams[1..] + [s];
      DeliveriesAppend(streams[1..], s, source, forward, failing, message);
    }
  }

  /**
   * A stream receives the message exactly when it is connected, its write does
   * not fail, and it is not the source while forwarding is on; only this
   * message is written, and a failing stream does not keep the others from
   * receiving it.
   */
  lemma {:induction false} DeliveredTo(streams: seq<StreamId>, source: Option<StreamId>, forward: bool,
                                       failing: set<StreamId>, message: Message, s: StreamId, m: Message)
    ensures (s, m) in Deliveries(streams, source, forward, failing, message)
            <==> m == message && s in streams && s !in failing && !(forward && source == Some(s))
  {
    if streams != [] {
      DeliveredTo(streams[1..], source, forward, failing, message, s, m);
      assert streams == [streams[0]] + streams[1..];
    }
  }

  class Hub {
    /** The connected data streams, in the iteration order of the stream set. */
    var dataStreams: seq<StreamId>
    /** False with `-l`: messages go back to their source as well. */
    var forward: bool
    /** Every message written and flushed to a stream, in order. */
    var written: seq<(StreamId, Message)>

    constructor (streams: seq<StreamId>, forward: bool)
      ensures dataStreams == streams && this.forward == forward && written == []
    {
      dataStreams := streams;
      this.forward := forward;
      written := [];
    }

    /**
     * `Hub::sendMessage`. `failing` are the streams whose write throws; the
     * error is reported and the loop goes on with the next stream.
     */
    method SendMessage(message: Message, source: Option<StreamId>, failing: set<StreamId>)
      modifies this`written
      ensures written == old(written) + Deliveries(dataStreams, source, forward, failing, message)
    {
      var i := 0;
      while i < |dataStreams|
        invariant 0 <= i <= |dataStreams|
        invariant written == old(written) + Deliveries(dataStreams[..i], source, forward, failing, message)
      {
        var dest := dataStreams[i];
        DeliveriesAppend(dataStreams[..i], dest, source, forward, failing, message);
        assert dataStreams[..i + 1] == dataStreams[..i] + [dest];
        if !(forward && source == Some(dest)) && dest !in failing {
          written := written + [(dest, message)];
        }
        i := i + 1;
      }
      assert dataStreams[..i] == dataStreams;
    }
  }
}
