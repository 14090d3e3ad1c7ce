/**
 * The route handlers under `/nodes`, `/events` and `/reset`: which requests
 * each handler takes (`checkIfResponsible`), and what `handleRequest` does to
 * the interface's maps, to the request's response and to the log of what is
 * sent to the nodes.
 *
 * `tokens` is the request path after the handler's own prefix (after `nodes`
 * for the node handlers), as the dispatcher passes it. The node ids that
 * `getIdsFromArgs` selects and the address lookup of `getVarPos` are inputs:
 * their bodies are not part of this model.
 */
module HttpHandlers {
  import opened Wrappers
  import opened CLib
  import opened AsebaTypes
  import opened HttpRequests
  import opened JsonForm
  import opened HttpInterfaceState

  // ---------------------------------------------------------------------------
  // Responsibility

  /** `LoadHandler::checkIfResponsible`. */
  predicate LoadResponsible(verb: string, tokens: seq<string>) {
    |tokens| <= 1 && verb == "PUT"
  }

  /** `NodeEventsHandler::checkIfResponsible`: `tokens[1].find("events") == 0`. */
  predicate NodeEventsResponsible(tokens: seq<string>) {
    |tokens| >= 2 && Find(tokens[1], "events") == Some(0)
  }

  /** `NodeInfoHandler::checkIfResponsible`. */
  predicate NodeInfoResponsible(tokens: seq<string>) {
    |tokens| <= 1
  }

  /** `s.find(p) == 0` holds exactly when `p` is a prefix of `s`. */
  lemma FindAtStart(s: string, p: string)
    ensures Find(s, p) == Some(0) <==> StartsWith(s, p)
  {
    if StartsWith(s, p) {
      assert OccursAt(s, p, 0);
    }
  }

  /**
   * The three rules: a load takes a `PUT` with at most one token, the event
   * stream of a node takes a second token starting with `events`, and the node
   * information takes at most one token. A request for a node's event stream
   * is never also a node information or load request.
   */
  lemma ResponsibilityRules(verb: string, tokens: seq<string>)
    ensures NodeEventsResponsible(tokens) <==> |tokens| >= 2 && StartsWith(tokens[1], "events")
    ensures LoadResponsible(verb, tokens) ==> NodeInfoResponsible(tokens)
    ensures NodeEventsResponsible(tokens) ==> !NodeInfoResponsible(tokens) && !LoadResponsible(verb, tokens)
  {
    if |tokens| >= 2 {
      FindAtStart(tokens[1], "events");
    }
  }

  // ---------------------------------------------------------------------------
  // Event subscriptions (`EventsHandler`, `NodeEventsHandler`)

  /** The names a subscription adds: `*` for a bare request, the tokens after the first otherwise. */
  function Subscribed(tokens: seq<string>): (r: set<string>)
    requires |tokens| >= 1
    ensures |tokens| == 1 ==> r == {"*"}
    ensures |tokens| >= 2 ==> forall n :: n in r <==> exists i :: 1 <= i < |tokens| && tokens[i] == n
  {
    if |tokens| == 1 then {"*"}
    else
      assert forall n :: n in tokens[1..] <==> exists i :: 1 <= i < |tokens| && tokens[i] == n by {
        forall n
          ensures n in tokens[1..] ==> exists i :: 1 <= i < |tokens| && tokens[i] == n
        {
          if n in tokens[1..] {
            var k :| 0 <= k < |tokens| - 1 && tokens[1..][k] == n;
            assert tokens[k + 1] == n;
          }
        }
      }
      Names(tokens[1..])
  }

  /** The header fields of a server-sent event stream (section 9.2 of the HTML Living Standard). */
  function EventStreamHeaders(headers: map<string, string>): (r: map<string, string>)
    ensures r.Keys == headers.Keys + {"Content-Type", "Cache-Control", "Connection"}
    ensures r["Content-Type"] == "text/event-stream" && r["Cache-Control"] == "no-cache"
    ensures r["Connection"] == "keep-alive"
    ensures forall h :: h in headers && h !in {"Content-Type", "Cache-Control", "Connection"} ==> r[h] == headers[h]
  {
    headers["Content-Type" := "text/event-stream"]["Cache-Control" := "no-cache"]["Connection" := "keep-alive"]
  }

  /**
   * `EventsHandler::handleRequest` and `NodeEventsHandler::handleRequest`:
   * add the subscribed names to the request's set, send the event-stream
   * header at once and hold the connection open.
   */
  method HandleSubscription(iface: HttpInterface, request: HttpRequest, tokens: seq<string>)
    requires |tokens| >= 1
    modifies iface`eventSubscriptions, request`response, request`blocking
    ensures iface.eventSubscriptions
         == old(iface.eventSubscriptions)[request := old(iface.SubscriptionsOf(request)) + Subscribed(tokens)]
    ensures request.response
         == Some(old(request.Current()).(headers := EventStreamHeaders(old(request.Current()).headers), sent := true))
    ensures request.blocking && !request.IsResponseReady()
  {
    if |tokens| == 1 {
      iface.Subscribe(request, ["*"]);
      assert Names(["*"]) == {"*"};
    } else {
      iface.Subscribe(request, tokens[1..]);
    }
    request.SetHeader("Content-Type", "text/event-stream");
    request.SetHeader("Cache-Control", "no-cache");
    request.SetHeader("Connection", "keep-alive");
    request.Send();
    request.SetBlocking(true);
  }

  /**
   * A subscription is a set union: the names already subscribed stay, and a
   * name is added exactly when it is `*` of a bare request or one of the
   * tokens after the first.
   */
  lemma SubscriptionUnion(before: set<string>, tokens: seq<string>, n: string)
    requires |tokens| >= 1
    ensures n in before + Subscribed(tokens)
        <==> n in before || (|tokens| == 1 && n == "*") || (|tokens| >= 2 && n in tokens[1..])
  {
    if |tokens| >= 2 && n in tokens[1..] {
      var k :| 0 <= k < |tokens| - 1 && tokens[1..][k] == n;
      assert tokens[k + 1] == n;
    }
  }

  // ---------------------------------------------------------------------------
  // Loading a script (`LoadHandler`)

  /** The script of a `PUT` body: everything after the first `file=`, or `None` when there is none. */
  function LoadedScript(content: string): (r: Option<string>)
    ensures r.None? <==> forall p :: 0 <= p <= |content| ==> !OccursAt(content, "file=", p)
    ensures r.Some? ==> exists p :: 0 <= p && p + 5 + |r.value| == |content|
                                 && OccursAt(content, "file=", p)
                                 && (forall q :: 0 <= q < p ==> !OccursAt(content, "file=", q))
                                 && r.value == content[p + 5..]
  {
    match Find(content, "file=")
    case None => None
    case Some(pos) => Some(content[pos + 5..])
  }

  /** One `aeslLoadMemory` per selected node, in the order of the ids. */
  function LoadActions(ids: seq<NodeId>, script: string): (r: seq<Action>)
    ensures |r| == |ids|
    ensures forall k :: 0 <= k < |ids| ==> r[k] == Loaded(ids[k], script)
  {
    if ids == [] then [] else LoadActions(ids[..|ids| - 1], script) + [Loaded(ids[|ids| - 1], script)]
  }

  /**
   * `LoadHandler::handleRequest`: with a `file=` in the body, load the text
   * after it on every selected node and respond; without one, answer 400 and
   * load nothing.
   */
  method HandleLoad(iface: HttpInterface, request: HttpRequest, ids: seq<NodeId>)
    modifies iface`actions, request`response
    ensures LoadedScript(request.content).None? ==>
              iface.actions == old(iface.actions)
              && request.response == Some(old(request.Current()).(status := HttpStatusBadRequest))
    ensures LoadedScript(request.content).Some? ==>
              iface.actions == old(iface.actions) + LoadActions(ids, LoadedScript(request.content).value)
              && request.response == Some(old(request.Current()))
  {
    var pos := Find(request.content, "file=");
    if pos.Some? {
      var script := request.content[pos.value + 5..];
      var i := 0;
      while i < |ids|
        invariant 0 <= i <= |ids|
        invariant iface.actions == old(iface.actions) + LoadActions(ids[..i], script)
        invariant request.response == old(request.response)
      {
        assert ids[..i + 1][..i] == ids[..i];
        iface.Emit(Loaded(ids[i], script));
        i := i + 1;
      }
      assert ids[..i] == ids;
      request.Respond();
    } else {
      request.SetStatus(HttpStatusBadRequest);
    }
  }

  // ---------------------------------------------------------------------------
  // Node information (`NodeInfoHandler`)

  function Quoted(s: string): string {
    "\"" + s + "\""
  }

  /** The members of a JSON text separated by commas, as the handlers write them: no comma before the first. */
  function CommaList(parts: seq<string>): string {
    if parts == [] then ""
    else if |parts| == 1 then parts[0]
    else CommaList(parts[..|parts| - 1]) + "," + parts[|parts| - 1]
  }

  /** Where the `k`-th member starts in `CommaList(parts)`: after the earlier members and one comma each. */
  function Offset(parts: seq<string>, k: nat): nat
    requires k <= |parts|
  {
    if k == 0 then 0 else Offset(parts, k - 1) + |parts[k - 1]| + 1
  }

  lemma {:induction false} CommaListLength(parts: seq<string>)
    requires parts != []
    ensures |CommaList(parts)| == Offset(parts, |parts| - 1) + |parts[|parts| - 1]|
  {
    if |parts| > 1 {
      var init := parts[..|parts| - 1];
      CommaListLength(init);
      OffsetPrefix(parts, init, |init| - 1);
    }
  }

  lemma {:induction false} OffsetPrefix(parts: seq<string>, init: seq<string>, k: nat)
    requires k <= |init| <= |parts| && init == parts[..|init|]
    ensures Offset(init, k) == Offset(parts, k)
  {
    if k > 0 {
      OffsetPrefix(parts, init, k - 1);
    }
  }

  /**
   * The members appear in order: the `k`-th is found at `Offset(parts, k)`,
   * followed by a comma unless it is the last.
   */
  lemma {:induction false} CommaListMember(parts: seq<string>, k: nat)
    requires k < |parts|
    ensures OccursAt(CommaList(parts), parts[k], Offset(parts, k))
    ensures k + 1 < |parts| ==> OccursAt(CommaList(parts), ",", Offset(parts, k) + |parts[k]|)
    decreases |parts|
  {
    if |parts| > 1 {
      if k < |parts| - 1 {
        var init := parts[..|parts| - 1];
        CommaListMember(init, k);
        MemberBeforeLast(parts, init, k, Offset(parts, k));
        CommaBeforeLast(parts, init, k, Offset(parts, k) + |parts[k]|);
      } else {
        LastMember(parts);
      }
    }
  }

  /** A member before the last sits where it sat in the list without the last one. */
  lemma MemberBeforeLast(parts: seq<string>, init: seq<string>, k: nat, at: nat)
    requires |parts| > 1 && init == parts[..|parts| - 1] && k < |init| && at == Offset(parts, k)
    requires OccursAt(CommaList(init), init[k], Offset(init, k))
    ensures OccursAt(CommaList(parts), parts[k], at)
  {
    var tail := "," + parts[|parts| - 1];
    CommaListSnoc(parts, init);
    OffsetPrefix(parts, init, k);
    PrefixOccurs(CommaList(init), tail, init[k], Offset(init, k));
  }

  /** The comma after a member before the last: inherited, or the one that precedes the last member. */
  lemma CommaBeforeLast(parts: seq<string>, init: seq<string>, k: nat, at: nat)
    requires |parts| > 1 && init == parts[..|parts| - 1] && k < |init| && at == Offset(parts, k) + |parts[k]|
    requires k + 1 < |init| ==> OccursAt(CommaList(init), ",", Offset(init, k) + |init[k]|)
    ensures OccursAt(CommaList(parts), ",", at)
  {
    var tail := "," + parts[|parts| - 1];
    var head := CommaList(init);
    CommaListSnoc(parts, init);
    OffsetPrefix(parts, init, k);
    assert at == Offset(init, k) + |init[k]|;
    if k + 1 < |init| {
      PrefixOccurs(head, tail, ",", at);
    } else {
      CommaListLength(init);
      assert at == |head|;
      CommaAtSeam(head, tail);
    }
  }

  /** A list of two or more members is the list without its last member, a comma and the last member. */
  lemma CommaListSnoc(parts: seq<string>, init: seq<string>)
    requires |parts| > 1 && init == parts[..|parts| - 1]
    ensures CommaList(parts) == CommaList(init) + ("," + parts[|parts| - 1])
  {
    assert CommaList(parts) == CommaList(init) + "," + parts[|parts| - 1];
  }

  /** A comma that opens the appended text sits right after the text before it. */
  lemma CommaAtSeam(a: string, tail: string)
    requires |tail| > 0 && tail[0] == ','
    ensures OccursAt(a + tail, ",", |a|)
  {
    assert (a + tail)[|a|..|a| + 1] == [tail[0]];
  }

  /** The last member closes the list, after the comma that ends the others. */
  lemma LastMember(parts: seq<string>)
    requires |parts| > 1
    ensures OccursAt(CommaList(parts), parts[|parts| - 1], Offset(parts, |parts| - 1))
  {
    var init := parts[..|parts| - 1];
    var last := parts[|parts| - 1];
    var whole := CommaList(parts);
    assert whole == CommaList(init) + "," + last;
    CommaListLength(init);
    OffsetPrefix(parts, init, |parts| - 2);
    assert Offset(parts, |parts| - 1) == |CommaList(init)| + 1;
    assert whole[Offset(parts, |parts| - 1)..] == last;
  }

  lemma PrefixOccurs(a: string, b: string, p: string, at: nat)
    requires OccursAt(a, p, at)
    ensures OccursAt(a + b, p, at)
  {
    assert (a + b)[at..at + |p|] == a[at..at + |p|];
  }

  /** The list entry of a node: `{"node":id,"name":"...","protocolVersion":v}`. */
  function ListEntry(id: NodeId, d: NodeDescription): string {
    "{\"node\":" + NatToDecimal(id) + ",\"name\":" + Quoted(d.name)
      + ",\"protocolVersion\":" + NatToDecimal(d.protocolVersion) + "}"
  }

  function ListEntries(descs: seq<(NodeId, NodeDescription)>): (r: seq<string>)
    ensures |r| == |descs|
    ensures forall k :: 0 <= k < |descs| ==> r[k] == ListEntry(descs[k].0, descs[k].1)
  {
    seq(|descs|, k requires 0 <= k < |descs| => ListEntry(descs[k].0, descs[k].1))
  }

  /** `"name":value` for a name and a number. */
  function NumberMember(name: string, value: string): string {
    Quoted(name) + ":" + value
  }

  function VariablesText(vars: seq<VariableEntry>): string {
    CommaList(seq(|vars|, k requires 0 <= k < |vars| => NumberMember(vars[k].name, NatToDecimal(vars[k].size))))
  }

  /** The failsafe listing of the description's own variables, `name:size`. */
  function DescriptionVariablesText(vars: seq<NamedVariable>): string {
    CommaList(seq(|vars|, k requires 0 <= k < |vars| => NumberMember(vars[k].name, NatToDecimal(vars[k].size))))
  }

  function NamedValuesText(values: seq<NamedValue>): string {
    CommaList(seq(|values|, k requires 0 <= k < |values| => NumberMember(values[k].name, IntToDecimal(values[k].value))))
  }

  function LocalEventsText(events: seq<LocalEvent>): string {
    CommaList(seq(|events|, k requires 0 <= k < |events| => Quoted(events[k].name) + ":" + Quoted(events[k].description)))
  }

  /** `allVariables.find(node)`: the position of the node's compiled variables. */
  function IndexOfNode(all: seq<(NodeId, seq<VariableEntry>)>, node: NodeId): (r: Option<nat>)
    ensures r.Some? ==> r.value < |all| && all[r.value].0 == node
    ensures r.Some? ==> forall j :: 0 <= j < r.value ==> all[j].0 != node
    ensures r.None? ==> forall j :: 0 <= j < |all| ==> all[j].0 != node
  {
    if all == [] then None
    else if all[0].0 == node then Some(0)
    else match IndexOfNode(all[1..], node)
      case None => None
      case Some(k) => Some(k + 1)
  }

  /** The compiled variables of one node; none when the node has no entry. */
  function VariablesOfNode(all: seq<(NodeId, seq<VariableEntry>)>, node: NodeId): seq<VariableEntry> {
    match IndexOfNode(all, node)
    case None => []
    case Some(k) => all[k].1
  }

  /** The members written for every map from `from` to the end, each map restarting its commas. */
  function VariablesFrom(all: seq<(NodeId, seq<VariableEntry>)>, from: nat): string
    requires from <= |all|
    decreases |all| - from
  {
    if from == |all| then "" else VariablesText(all[from].1) + VariablesFrom(all, from + 1)
  }

  predicate AnyVariablesFrom(all: seq<(NodeId, seq<VariableEntry>)>, from: nat)
    requires from <= |all|
  {
    exists k :: from <= k < |all| && all[k].1 != []
  }

  /**
   * The `namedVariables` members as the handler writes them: the maps of the
   * node AND OF EVERY LATER NODE, each restarting its commas; the description's
   * variables when none of these maps holds a variable.
   */
  function NamedVariablesAsWritten(all: seq<(NodeId, seq<VariableEntry>)>, node: NodeId, d: NodeDescription): string {
    match IndexOfNode(all, node)
    case None => DescriptionVariablesText(d.namedVariables)
    case Some(k) =>
      if AnyVariablesFrom(all, k) then VariablesFrom(all, k) else DescriptionVariablesText(d.namedVariables)
  }

  /** The `namedVariables` members the output evidently means: the node's own compiled variables, else the failsafe. */
  function NamedVariables(all: seq<(NodeId, seq<VariableEntry>)>, node: NodeId, d: NodeDescription): string {
    var own := VariablesOfNode(all, node);
    if own != [] then VariablesText(own) else DescriptionVariablesText(d.namedVariables)
  }

  /**
   * With two nodes of one variable each, the first node's object shows the
   * second node's variable too, glued to its own without a comma. For
   * `n < m` the two entries are in `std::map` order, as the handler sees them.
   */
  lemma NamedVariablesLeak(n: NodeId, m: NodeId, a: VariableEntry, b: VariableEntry, d: NodeDescription)
    requires n != m
    ensures var all := [(n, [a]), (m, [b])];
      && NamedVariablesAsWritten(all, n, d)
         == NumberMember(a.name, NatToDecimal(a.size)) + NumberMember(b.name, NatToDecimal(b.size))
      && NamedVariables(all, n, d) == NumberMember(a.name, NatToDecimal(a.size))
  {
    var all := [(n, [a]), (m, [b])];
    assert IndexOfNode(all, n) == Some(0);
    assert AnyVariablesFrom(all, 0) by {
      assert all[0].1 != [];
    }
    assert VariablesFrom(all, 2) == "";
    assert VariablesFrom(all, 1) == VariablesText([b]);
    OneMember(a);
    OneMember(b);
  }

  lemma OneMember(v: VariableEntry)
    ensures VariablesText([v]) == NumberMember(v.name, NatToDecimal(v.size))
  {
    var members := seq(1, k requires 0 <= k < 1 => NumberMember([v][k].name, NatToDecimal([v][k].size)));
    assert members == [NumberMember(v.name, NatToDecimal(v.size))];
  }

  lemma {:induction false} IndexOfNodeAppend(all: seq<(NodeId, seq<VariableEntry>)>, m: NodeId, vs: seq<VariableEntry>, node: NodeId)
    requires m != node
    ensures IndexOfNode(all + [(m, vs)], node) == IndexOfNode(all, node)
  {
    if all != [] {
      assert (all + [(m, vs)])[1..] == all[1..] + [(m, vs)];
      IndexOfNodeAppend(all[1..], m, vs, node);
    }
  }

  /** The node's `namedVariables` do not depend on the variables of any other node. */
  lemma NamedVariablesIgnoreOthers(all: seq<(NodeId, seq<VariableEntry>)>, m: NodeId, vs: seq<VariableEntry>,
                                   node: NodeId, d: NodeDescription)
    requires m != node
    ensures NamedVariables(all + [(m, vs)], node, d) == NamedVariables(all, node, d)
  {
    IndexOfNodeAppend(all, m, vs, node);
    var k := IndexOfNode(all, node);
    if k.Some? {
      assert (all + [(m, vs)])[k.value] == all[k.value];
    }
  }

  /** The one-node object opens with the node id, written as a string. */
  function NodeHead(id: NodeId): string {
    "{\"node\":" + Quoted(NatToDecimal(id)) + ","
  }

  /** The one-node object. */
  function NodeDetail(id: NodeId, d: NodeDescription, all: seq<(NodeId, seq<VariableEntry>)>, defs: CommonDefinitions): (r: string)
    ensures |r| > |NodeHead(id)|
  {
    NodeHead(id) + NodeMembers(id, d, all, defs)
  }

  /** The members of the one-node object after the id, and its closing brace. */
  function NodeMembers(id: NodeId, d: NodeDescription, all: seq<(NodeId, seq<VariableEntry>)>, defs: CommonDefinitions): string {
    "\"name\":" + Quoted(d.name)
      + ",\"protocolVersion\":" + NatToDecimal(d.protocolVersion)
      + ",\"bytecodeSize\":" + NatToDecimal(d.bytecodeSize)
      + ",\"variablesSize\":" + NatToDecimal(d.variablesSize)
      + ",\"stackSize\":" + NatToDecimal(d.stackSize)
      + ",\"namedVariables\":{" + NamedVariablesAsWritten(all, id, d) + "}"
      + ",\"localEvents\":{" + LocalEventsText(d.localEvents) + "}"
      + ",\"constants\":{" + NamedValuesText(defs.constants) + "}"
      + ",\"events\":{" + NamedValuesText(defs.events) + "}"
      + "}"
  }

  /** A node is selected by its id, read with `atoi` and cast to `unsigned`, or by a prefix of its name. */
  predicate NodeMatches(id: NodeId, name: string, token: string) {
    id == U32(Atoi(token)) || StartsWith(name, token)
  }

  /** The first description the token selects. */
  function FirstMatch(descs: seq<(NodeId, NodeDescription)>, token: string): (r: Option<nat>)
    ensures r.Some? ==> r.value < |descs|
  {
    if descs == [] then None
    else if NodeMatches(descs[0].0, descs[0].1.name, token) then Some(0)
    else
      var rest := FirstMatch(descs[1..], token);
      if rest.None? then None else Some(rest.value + 1)
  }

  /** What `FirstMatch` finds is selected by the token, and no earlier description is. */
  lemma {:induction false} FirstMatchSound(descs: seq<(NodeId, NodeDescription)>, token: string)
    ensures var r := FirstMatch(descs, token);
      && (r.Some? ==> NodeMatches(descs[r.value].0, descs[r.value].1.name, token))
      && (r.Some? ==> forall j :: 0 <= j < r.value ==> !NodeMatches(descs[j].0, descs[j].1.name, token))
    decreases |descs|
  {
    if descs != [] && !NodeMatches(descs[0].0, descs[0].1.name, token) {
      FirstMatchSound(descs[1..], token);
      assert forall j :: 1 <= j < |descs| ==> descs[1..][j - 1] == descs[j];
    }
  }

  /** The first description the token selects is the one `FirstMatch` finds. */
  lemma {:induction false} FirstMatchIs(descs: seq<(NodeId, NodeDescription)>, token: string, i: nat)
    requires i < |descs| && NodeMatches(descs[i].0, descs[i].1.name, token)
    requires forall j :: 0 <= j < i ==> !NodeMatches(descs[j].0, descs[j].1.name, token)
    ensures FirstMatch(descs, token) == Some(i)
    decreases i
  {
    if i > 0 {
      NoMatchInRest(descs, token, i);
      FirstMatchIs(descs[1..], token, i - 1);
      FirstMatchSkips(descs, token);
    }
  }

  /** The preconditions of `FirstMatchIs` carry over from `descs` at `i` to its tail at `i - 1`. */
  lemma NoMatchInRest(descs: seq<(NodeId, NodeDescription)>, token: string, i: nat)
    requires 0 < i < |descs| && NodeMatches(descs[i].0, descs[i].1.name, token)
    requires forall j :: 0 <= j < i ==> !NodeMatches(descs[j].0, descs[j].1.name, token)
    ensures NodeMatches(descs[1..][i - 1].0, descs[1..][i - 1].1.name, token)
    ensures forall j :: 0 <= j < i - 1 ==> !NodeMatches(descs[1..][j].0, descs[1..][j].1.name, token)
    ensures !NodeMatches(descs[0].0, descs[0].1.name, token)
  {
    var rest := descs[1..];
    assert rest[i - 1] == descs[i];
    forall j | 0 <= j < i - 1
      ensures !NodeMatches(rest[j].0, rest[j].1.name, token)
    {
      assert rest[j] == descs[j + 1];
    }
  }

  /** Past a first description that does not match, the search goes on in the tail, one place further. */
  lemma FirstMatchSkips(descs: seq<(NodeId, NodeDescription)>, token: string)
    requires descs != [] && !NodeMatches(descs[0].0, descs[0].1.name, token)
    ensures FirstMatch(descs[1..], token).Some? ==> FirstMatch(descs, token) == Some(FirstMatch(descs[1..], token).value + 1)
  {
  }

  /** When the token selects no description, `FirstMatch` finds none. */
  lemma {:induction false} FirstMatchNone(descs: seq<(NodeId, NodeDescription)>, token: string)
    requires forall j :: 0 <= j < |descs| ==> !NodeMatches(descs[j].0, descs[j].1.name, token)
    ensures FirstMatch(descs, token) == None
    decreases |descs|
  {
    if descs != [] {
      assert !NodeMatches(descs[0].0, descs[0].1.name, token);
      assert forall j :: 0 <= j < |descs| - 1 ==> descs[1..][j] == descs[j + 1];
      FirstMatchNone(descs[1..], token);
    }
  }

  /** The body `NodeInfoHandler::handleRequest` writes. */
  function NodeInfoJson(tokens: seq<string>, descs: seq<(NodeId, NodeDescription)>,
                        all: seq<(NodeId, seq<VariableEntry>)>, definitions: map<NodeId, CommonDefinitions>): string
  {
    var written := if tokens == [] then NodeListJson(descs) else SelectedJson(tokens[0], descs, all, definitions);
    if |written| == 0 then "[]" else written
  }

  /** The listing of every node. */
  function NodeListJson(descs: seq<(NodeId, NodeDescription)>): (r: string)
    ensures |r| >= 2
  {
    "[" + CommaList(ListEntries(descs)) + "]"
  }

  /** The object of the first node the token selects; nothing when it selects none. */
  function SelectedJson(token: string, descs: seq<(NodeId, NodeDescription)>,
                        all: seq<(NodeId, seq<VariableEntry>)>, definitions: map<NodeId, CommonDefinitions>): string
  {
    match FirstMatch(descs, token)
    case None => ""
    case Some(k) => NodeDetail(descs[k].0, descs[k].1, all, DefinitionsIn(definitions, descs[k].0))
  }

  /** One more entry of the listing, as the handler's loop writes it. */
  lemma ListingStep(descs: seq<(NodeId, NodeDescription)>, i: nat)
    requires i < |descs|
    ensures CommaList(ListEntries(descs[..i + 1]))
         == CommaList(ListEntries(descs[..i])) + (if i == 0 then "" else ",") + ListEntry(descs[i].0, descs[i].1)
  {
    assert ListEntries(descs[..i + 1])[..i] == ListEntries(descs[..i]);
  }

  /** The first node the token selects is the first one the loop meets. */
  lemma SelectedAt(token: string, descs: seq<(NodeId, NodeDescription)>,
                   all: seq<(NodeId, seq<VariableEntry>)>, definitions: map<NodeId, CommonDefinitions>, i: nat)
    requires i < |descs| && NodeMatches(descs[i].0, descs[i].1.name, token)
    requires forall j :: 0 <= j < i ==> !NodeMatches(descs[j].0, descs[j].1.name, token)
    ensures SelectedJson(token, descs, all, definitions)
         == NodeDetail(descs[i].0, descs[i].1, all, DefinitionsIn(definitions, descs[i].0))
  {
    FirstMatchIs(descs, token, i);
  }

  /**
   * The listing is an array with one entry per description, in map order:
   * the `k`-th entry starts right after the earlier ones and their commas.
   */
  lemma NodeListing(descs: seq<(NodeId, NodeDescription)>, all: seq<(NodeId, seq<VariableEntry>)>,
                    definitions: map<NodeId, CommonDefinitions>, k: nat)
    requires k < |descs|
    ensures var json := NodeInfoJson([], descs, all, definitions);
      && json[0] == '[' && json[|json| - 1] == ']'
      && OccursAt(json, ListEntry(descs[k].0, descs[k].1), 1 + Offset(ListEntries(descs), k))
  {
    ListedAt(descs, k);
    InfoListing(descs, all, definitions);
  }

  lemma ListedAt(descs: seq<(NodeId, NodeDescription)>, k: nat)
    requires k < |descs|
    ensures var json := NodeListJson(descs);
      && json[0] == '[' && json[|json| - 1] == ']'
      && OccursAt(json, ListEntry(descs[k].0, descs[k].1), 1 + Offset(ListEntries(descs), k))
  {
    var entries := ListEntries(descs);
    CommaListMember(entries, k);
    OccursInside("[", CommaList(entries), "]", entries[k], Offset(entries, k));
  }

  lemma OccursInside(a: string, s: string, b: string, p: string, at: nat)
    requires OccursAt(s, p, at)
    ensures OccursAt(a + s + b, p, |a| + at)
  {
    assert (a + s + b)[|a| + at..|a| + at + |p|] == s[at..at + |p|];
  }

  /**
   * With a token, the body is the object of the first node the token selects
   * (its id written as a string), or `[]` when it selects none.
   */
  lemma NodeSelection(token: string, descs: seq<(NodeId, NodeDescription)>, all: seq<(NodeId, seq<VariableEntry>)>,
                      definitions: map<NodeId, CommonDefinitions>)
    ensures var json := NodeInfoJson([token], descs, all, definitions);
      && ((forall j :: 0 <= j < |descs| ==> !NodeMatches(descs[j].0, descs[j].1.name, token)) ==> json == "[]")
      && (forall k :: 0 <= k < |descs| && NodeMatches(descs[k].0, descs[k].1.name, token)
                      && (forall j :: 0 <= j < k ==> !NodeMatches(descs[j].0, descs[j].1.name, token))
            ==> StartsWith(json, NodeHead(descs[k].0)))
  {
    var json := NodeInfoJson([token], descs, all, definitions);
    if forall j :: 0 <= j < |descs| ==> !NodeMatches(descs[j].0, descs[j].1.name, token) {
      InfoNone([token], descs, all, definitions);
    }
    forall k | 0 <= k < |descs| && NodeMatches(descs[k].0, descs[k].1.name, token)
               && (forall j :: 0 <= j < k ==> !NodeMatches(descs[j].0, descs[j].1.name, token))
      ensures StartsWith(json, NodeHead(descs[k].0))
    {
      SelectedAt(token, descs, all, definitions, k);
      var head := NodeHead(descs[k].0);
      var detail := NodeDetail(descs[k].0, descs[k].1, all, DefinitionsIn(definitions, descs[k].0));
      assert detail[..|head|] == head;
      assert json == detail;
    }
  }

  lemma InfoListing(descs: seq<(NodeId, NodeDescription)>, all: seq<(NodeId, seq<VariableEntry>)>,
                    definitions: map<NodeId, CommonDefinitions>)
    ensures NodeInfoJson([], descs, all, definitions) == NodeListJson(descs)
  {
  }

  lemma InfoNone(tokens: seq<string>, descs: seq<(NodeId, NodeDescription)>, all: seq<(NodeId, seq<VariableEntry>)>,
                 definitions: map<NodeId, CommonDefinitions>)
    requires tokens != []
    requires forall j :: 0 <= j < |descs| ==> !NodeMatches(descs[j].0, descs[j].1.name, tokens[0])
    ensures NodeInfoJson(tokens, descs, all, definitions) == "[]"
  {
    FirstMatchNone(descs, tokens[0]);
  }

  lemma InfoSelected(tokens: seq<string>, descs: seq<(NodeId, NodeDescription)>, all: seq<(NodeId, seq<VariableEntry>)>,
                     definitions: map<NodeId, CommonDefinitions>, i: nat)
    requires tokens != [] && i < |descs| && NodeMatches(descs[i].0, descs[i].1.name, tokens[0])
    requires forall j :: 0 <= j < i ==> !NodeMatches(descs[j].0, descs[j].1.name, tokens[0])
    ensures NodeInfoJson(tokens, descs, all, definitions)
         == NodeDetail(descs[i].0, descs[i].1, all, DefinitionsIn(definitions, descs[i].0))
  {
    SelectedAt(tokens[0], descs, all, definitions, i);
  }

  /** One pass of the listing loop: a comma unless first, then the node's entry. */
  method WriteListEntry(json: string, descs: seq<(NodeId, NodeDescription)>, i: nat) returns (r: string)
    requires i < |descs| && json == "[" + CommaList(ListEntries(descs[..i]))
    ensures r == "[" + CommaList(ListEntries(descs[..i + 1]))
  {
    var separator := if i == 0 then "" else ",";
    ListingStep(descs, i);
    assert "[" + CommaList(ListEntries(descs[..i])) + separator + ListEntry(descs[i].0, descs[i].1)
        == "[" + (CommaList(ListEntries(descs[..i])) + separator + ListEntry(descs[i].0, descs[i].1));
    r := json + separator + ListEntry(descs[i].0, descs[i].1);
  }

  /**
   * `NodeInfoHandler::handleRequest`: walk the descriptions in map order,
   * writing every entry of the listing, or stopping at the first node the
   * token selects; an empty result becomes `[]`.
   */
  method HandleNodeInfo(iface: HttpInterface, request: HttpRequest, tokens: seq<string>)
    modifies request`response
    ensures request.response == Some(old(request.Current()).(content :=
              NodeInfoJson(tokens, iface.nodesDescriptions, iface.allVariables, iface.commonDefinitions)))
  {
    var json := WriteNodeInfo(tokens, iface.nodesDescriptions, iface.allVariables, iface.commonDefinitions);
    request.SetContent(json);
  }

  /** The loop of `NodeInfoHandler::handleRequest` over the node descriptions. */
  method WriteNodeInfo(tokens: seq<string>, descs: seq<(NodeId, NodeDescription)>,
                       all: seq<(NodeId, seq<VariableEntry>)>, definitions: map<NodeId, CommonDefinitions>)
    returns (json: string)
    ensures json == NodeInfoJson(tokens, descs, all, definitions)
  {
    json := if |tokens| > 0 then "" else "[";
    var i := 0;
    while i < |descs|
      invariant 0 <= i <= |descs|
      invariant |tokens| == 0 ==> json == "[" + CommaList(ListEntries(descs[..i]))
      invariant |tokens| > 0 ==> json == "" && forall j :: 0 <= j < i ==> !NodeMatches(descs[j].0, descs[j].1.name, tokens[0])
    {
      var id := descs[i].0;
      var d := descs[i].1;
      if |tokens| == 0 {
        json := WriteListEntry(json, descs, i);
      } else if NodeMatches(id, d.name, tokens[0]) {
        InfoSelected(tokens, descs, all, definitions, i);
        json := NodeDetail(id, d, all, DefinitionsIn(definitions, id));
        break;
      }
      i := i + 1;
    }
    if |tokens| == 0 {
      assert descs[..i] == descs;
      json := json + "]";
      InfoListing(descs, all, definitions);
    } else if i == |descs| {
      InfoNone(tokens, descs, all, definitions);
    }
    if |json| == 0 {
      json := "[]";
    }
  }

  // ---------------------------------------------------------------------------
  // Variables and events (`VariableOrEventHandler`)

  /** What the handler does for one selected node. */
  datatype NodeStep =
    | SetVariable(values: seq<string>)
    | GetVariable(start: nat, name: string)
    | UnknownVariable
    | SendEvent(data: seq<string>)

  /** `method.find("POST") == 0`. */
  predicate IsPost(verb: string) {
    Find(verb, "POST") == Some(0)
  }

  /**
   * The decision for one node: an event of the node is sent with the name and
   * its arguments; a variable is set on `POST` or with a value in the path, and
   * read otherwise, which needs its address.
   */
  function Step(defs: CommonDefinitions, verb: string, tokens: seq<string>, content: string, address: Option<nat>): (r: NodeStep)
    requires |tokens| >= 2
    ensures r.SendEvent? <==> IndexOfName(defs.events, tokens[1]).Some?
    ensures r.SendEvent? ==> |r.data| >= 1 && r.data[0] == tokens[1]
    ensures r.SendEvent? && |tokens| >= 3 ==> r.data == tokens[1..]
    ensures r.SendEvent? && |tokens| < 3 ==> r.data == [tokens[1]]
    ensures r.SetVariable? <==> !r.SendEvent? && (StartsWith(verb, "POST") || |tokens| >= 3)
    ensures r.SetVariable? ==> |r.values| >= 1 && r.values[0] == tokens[1]
    ensures r.SetVariable? && |tokens| >= 3 ==> r.values == tokens[1..]
    ensures r.SetVariable? && |tokens| < 3 ==> r.values == [tokens[1]] + ParseJsonForm(content).GetOr([])
    ensures r.GetVariable? ==> r.name == tokens[1] && address == Some(r.start)
    ensures r.UnknownVariable? <==> !r.SendEvent? && !r.SetVariable? && address.None?
  {
    FindAtStart(verb, "POST");
    var form := ParseJsonForm(content).GetOr([]);
    // the event branch parses the substring of the body that starts at its end
    var eventForm := ParseJsonForm(content[|content|..]).GetOr([]);
    EmptyBody(content[|content|..]);
    if IndexOfName(defs.events, tokens[1]).None? then
      if IsPost(verb) || |tokens| >= 3 then
        SetVariable(if |tokens| >= 3 then tokens[1..] else [tokens[1]] + form)
      else
        match address
        case None => UnknownVariable
        case Some(start) => GetVariable(start, tokens[1])
    else
      SendEvent([tokens[1]] + (if |tokens| >= 3 then tokens[2..] else if IsPost(verb) then eventForm else []))
  }

  /**
   * A `POST` of a rendered array to a variable sets the name followed by the
   * numeral of every value, in order, each reading back as its value.
   */
  lemma PostSetsBody(defs: CommonDefinitions, verb: string, tokens: seq<string>, vs: seq<int>, address: Option<nat>)
    requires |tokens| == 2 && IsPost(verb) && IndexOfName(defs.events, tokens[1]).None?
    ensures Step(defs, verb, tokens, Render(vs), address) == SetVariable([tokens[1]] + Numerals(vs))
    ensures forall i :: 0 <= i < |vs| ==> Atoi(Step(defs, verb, tokens, Render(vs), address).values[i + 1]) == vs[i]
  {
    ParseRender(vs);
    NumeralsAfterName(tokens[1], vs, Step(defs, verb, tokens, Render(vs), address).values);
  }

  /** The event data the `POST` branch evidently means to send: the name, then the body's elements. */
  function EventData(verb: string, tokens: seq<string>, content: string): (data: seq<string>)
    requires |tokens| >= 2
    ensures |data| >= 1 && data[0] == tokens[1]
    ensures |tokens| >= 3 ==> data == tokens[1..]
  {
    [tokens[1]] + (if |tokens| >= 3 then tokens[2..] else if IsPost(verb) then ParseJsonForm(content).GetOr([]) else [])
  }

  /** As written, a `POST` to an event drops a well-formed body: only the name is sent. */
  lemma EventBodyDropped(defs: CommonDefinitions, verb: string, tokens: seq<string>, vs: seq<int>, address: Option<nat>)
    requires |tokens| == 2 && IsPost(verb) && IndexOfName(defs.events, tokens[1]).Some? && vs != []
    ensures Step(defs, verb, tokens, Render(vs), address).data == [tokens[1]]
    ensures |EventData(verb, tokens, Render(vs))| == 1 + |vs|
  {
    ParseRender(vs);
  }

  /** The intended event data carries every element of a rendered body, in order. */
  lemma EventDataCarriesBody(verb: string, tokens: seq<string>, vs: seq<int>)
    requires |tokens| == 2 && IsPost(verb)
    ensures EventData(verb, tokens, Render(vs)) == [tokens[1]] + Numerals(vs)
    ensures forall i :: 0 <= i < |vs| ==> Atoi(EventData(verb, tokens, Render(vs))[i + 1]) == vs[i]
  {
    ParseRender(vs);
    NumeralsAfterName(tokens[1], vs, EventData(verb, tokens, Render(vs)));
  }

  /** After the name, each element is the numeral of the value at its place. */
  lemma NumeralsAfterName(name: string, vs: seq<int>, data: seq<string>)
    requires data == [name] + Numerals(vs)
    ensures forall i :: 0 <= i < |vs| ==> Atoi(data[i + 1]) == vs[i]
  {
    forall i | 0 <= i < |vs|
      ensures Atoi(data[i + 1]) == vs[i]
    {
      RenderedValues(vs, i);
    }
  }

  /** The part of the interface and the request the handler changes. */
  datatype Effects = Effects(actions: seq<Action>, pending: Waiting, response: Option<Response>)

  function Apply(e: Effects, step: NodeStep, node: NodeId, request: HttpRequest): Effects {
    match step
    case SetVariable(values) =>
      e.(actions := e.actions + [SetVariableSent(node, values)], response := Some(e.response.GetOr(NewResponse)))
    case GetVariable(start, name) =>
      e.(actions := e.actions + [GetVariablesSent(node, [name])], pending := HoldIn(e.pending, node, start, request))
    case UnknownVariable =>
      e.(response := Some(e.response.GetOr(NewResponse).(status := HttpStatusNotFound)))
    case SendEvent(data) =>
      e.(actions := e.actions + [EventSent(node, data)], response := Some(e.response.GetOr(NewResponse)))
  }

  /** The effects of the handler on the nodes `ids`, one after the other. */
  function Handled(e: Effects, ids: seq<NodeId>, request: HttpRequest, definitions: map<NodeId, CommonDefinitions>,
                   verb: string, tokens: seq<string>, content: string, varPos: (NodeId, string) -> Option<nat>): Effects
    requires ids != [] ==> |tokens| >= 2
  {
    if ids == [] then e
    else
      var node := ids[|ids| - 1];
      Apply(Handled(e, ids[..|ids| - 1], request, definitions, verb, tokens, content, varPos),
            Step(DefinitionsIn(definitions, node), verb, tokens, content, varPos(node, tokens[1])), node, request)
  }

  /** `VariableOrEventHandler::handleRequest` over the nodes `getIdsFromArgs` selected. */
  method HandleVariableOrEvent(iface: HttpInterface, request: HttpRequest, tokens: seq<string>, ids: seq<NodeId>,
                               varPos: (NodeId, string) -> Option<nat>)
    requires ids != [] ==> |tokens| >= 2
    modifies iface`actions, iface`pendingVariables, request`response
    ensures Effects(iface.actions, iface.pendingVariables, request.response)
         == Handled(Effects(old(iface.actions), old(iface.pendingVariables), old(request.response)), ids, request,
                    iface.commonDefinitions, request.verb, tokens, request.content, varPos)
  {
    var e0 := Effects(iface.actions, iface.pendingVariables, request.response);
    var i := 0;
    while i < |ids|
      invariant 0 <= i <= |ids|
      invariant Effects(iface.actions, iface.pendingVariables, request.response)
             == Handled(e0, ids[..i], request, iface.commonDefinitions, request.verb, tokens, request.content, varPos)
    {
      assert ids[..i + 1][..i] == ids[..i];
      HandleNode(iface, request, tokens, ids[i], varPos);
      i := i + 1;
    }
    assert ids[..i] == ids;
  }

  /** The handler's work for one selected node. */
  method HandleNode(iface: HttpInterface, request: HttpRequest, tokens: seq<string>, node: NodeId,
                    varPos: (NodeId, string) -> Option<nat>)
    requires |tokens| >= 2
    modifies iface`actions, iface`pendingVariables, request`response
    ensures Effects(iface.actions, iface.pendingVariables, request.response)
         == Apply(Effects(old(iface.actions), old(iface.pendingVariables), old(request.response)),
                  Step(DefinitionsIn(iface.commonDefinitions, node), request.verb, tokens, request.content, varPos(node, tokens[1])),
                  node, request)
  {
    var step := Step(DefinitionsIn(iface.commonDefinitions, node), request.verb, tokens, request.content, varPos(node, tokens[1]));
    if IndexOfName(DefinitionsIn(iface.commonDefinitions, node).events, tokens[1]).None? {
      FindAtStart(request.verb, "POST");
      if IsPost(request.verb) || |tokens| >= 3 {
        var values: seq<string>;
        if |tokens| >= 3 {
          values := tokens[1..];
        } else {
          values := ParseJsonFormInto(request.content, [tokens[1]]);
        }
        assert |values| != 0;
        assert step == SetVariable(values);
        iface.Emit(SetVariableSent(node, values));
        request.Respond();
      } else {
        match varPos(node, tokens[1])
        case None =>
          assert step == UnknownVariable;
          request.SetStatus(HttpStatusNotFound);
        case Some(start) =>
          assert step == GetVariable(start, tokens[1]);
          iface.Emit(GetVariablesSent(node, [tokens[1]]));
          iface.Hold(node, start, request);
      }
    } else {
      FindAtStart(request.verb, "POST");
      var data: seq<string>;
      if |tokens| >= 3 {
        data := [tokens[1]] + tokens[2..];
      } else if IsPost(request.verb) {
        data := ParseJsonFormInto(request.content[|request.content|..], [tokens[1]]);
      } else {
        data := [tokens[1]];
      }
      assert step == SendEvent(data);
      iface.Emit(EventSent(node, data));
      request.Respond();
    }
  }

  /** When the name is an event of every selected node, no request is held for a variable. */
  lemma {:induction false} EventsHoldNothing(e: Effects, ids: seq<NodeId>, request: HttpRequest,
                                             definitions: map<NodeId, CommonDefinitions>, verb: string,
                                             tokens: seq<string>, content: string, varPos: (NodeId, string) -> Option<nat>)
    requires |tokens| >= 2
    requires forall k :: 0 <= k < |ids| ==> IndexOfName(DefinitionsIn(definitions, ids[k]).events, tokens[1]).Some?
    ensures Handled(e, ids, request, definitions, verb, tokens, content, varPos).pending == e.pending
  {
    if ids != [] {
      EventsHoldNothing(e, ids[..|ids| - 1], request, definitions, verb, tokens, content, varPos);
    }
  }

  /** Requests held for a variable stay held while the handler works through the nodes. */
  lemma {:induction false} HeldStays(e: Effects, ids: seq<NodeId>, request: HttpRequest,
                                     definitions: map<NodeId, CommonDefinitions>, verb: string,
                                     tokens: seq<string>, content: string, varPos: (NodeId, string) -> Option<nat>,
                                     address: (NodeId, nat))
    requires |tokens| >= 2
    ensures HeldIn(e.pending, address) <= HeldIn(Handled(e, ids, request, definitions, verb, tokens, content, varPos).pending, address)
  {
    if ids != [] {
      HeldStays(e, ids[..|ids| - 1], request, definitions, verb, tokens, content, varPos, address);
    }
  }

  /**
   * A read of a known variable leaves the request among the waiters of that
   * node's address, and a read is sent for it.
   */
  lemma {:induction false} ReadIsHeld(e: Effects, ids: seq<NodeId>, request: HttpRequest,
                                      definitions: map<NodeId, CommonDefinitions>, verb: string,
                                      tokens: seq<string>, content: string, varPos: (NodeId, string) -> Option<nat>, k: nat)
    requires |tokens| >= 2 && k < |ids|
    requires Step(DefinitionsIn(definitions, ids[k]), verb, tokens, content, varPos(ids[k], tokens[1])).GetVariable?
    ensures var start := varPos(ids[k], tokens[1]).value;
      request in HeldIn(Handled(e, ids, request, definitions, verb, tokens, content, varPos).pending, (ids[k], start))
  {
    var start := varPos(ids[k], tokens[1]).value;
    var init := ids[..|ids| - 1];
    var before := Handled(e, init, request, definitions, verb, tokens, content, varPos);
    if k == |ids| - 1 {
      assert request in HeldIn(HoldIn(before.pending, ids[k], start, request), (ids[k], start));
    } else {
      assert init[k] == ids[k];
      ReadIsHeld(e, init, request, definitions, verb, tokens, content, varPos, k);
      HeldStays(before, [ids[|ids| - 1]], request, definitions, verb, tokens, content, varPos, (ids[k], start));
      assert [ids[|ids| - 1]][..0] == [];
    }
  }

  /**
   * A read of a variable no selected node knows answers 404, sends nothing and
   * holds nothing.
   */
  lemma {:induction false} UnknownReads(e: Effects, ids: seq<NodeId>, request: HttpRequest,
                                        definitions: map<NodeId, CommonDefinitions>, verb: string,
                                        tokens: seq<string>, content: string, varPos: (NodeId, string) -> Option<nat>)
    requires |tokens| >= 2
    requires forall k :: 0 <= k < |ids| ==> Step(DefinitionsIn(definitions, ids[k]), verb, tokens, content, varPos(ids[k], tokens[1])).UnknownVariable?
    ensures var after := Handled(e, ids, request, definitions, verb, tokens, content, varPos);
      && after.actions == e.actions && after.pending == e.pending
      && (ids != [] ==> after.response.Some? && after.response.value.status == HttpStatusNotFound)
  {
    if ids != [] {
      UnknownReads(e, ids[..|ids| - 1], request, definitions, verb, tokens, content, varPos);
    }
  }

  // ---------------------------------------------------------------------------
  // Reset (`ResetHandler`)

  /** What the reset sends through one Aseba stream for one description. */
  function ResetStream(d: NodeDescription, stream: StreamId, node: NodeId, definitions: map<NodeId, CommonDefinitions>): (r: seq<Action>)
    ensures |r| >= 2 && r[0] == Wrote(stream, Reset(node)) && r[1] == Wrote(stream, Run(node))
    ensures forall k :: 2 <= k < |r| ==> !r[k].Wrote?
  {
    [Wrote(stream, Reset(node)), Wrote(stream, Run(node))]
      + (if StartsWith(d.name, "thymio-II")
         then [SetVariableSent(node, ["motor.left.target", "0"]), SetVariableSent(node, ["motor.right.target", "0"])]
         else [])
      + (if IndexOfName(DefinitionsIn(definitions, node).events, "reset").Some? then [EventSent(node, ["reset"])] else [])
  }

  /** The reset of one description, stream after stream. */
  function ResetRound(d: NodeDescription, streams: seq<(StreamId, NodeId)>, definitions: map<NodeId, CommonDefinitions>): seq<Action> {
    if streams == [] then []
    else ResetRound(d, streams[..|streams| - 1], definitions)
           + ResetStream(d, streams[|streams| - 1].0, streams[|streams| - 1].1, definitions)
  }

  /** The whole reset, description after description. */
  function ResetAll(descs: seq<(NodeId, NodeDescription)>, streams: seq<(StreamId, NodeId)>,
                    definitions: map<NodeId, CommonDefinitions>): seq<Action> {
    if descs == [] then []
    else ResetAll(descs[..|descs| - 1], streams, definitions) + ResetRound(descs[|descs| - 1].1, streams, definitions)
  }

  /** Every `Reset` written to a stream is followed at once by the `Run` of the same node on the same stream. */
  predicate ResetThenRun(actions: seq<Action>) {
    forall k :: 0 <= k < |actions| && actions[k].Wrote? && actions[k].message.Reset? ==>
      k + 1 < |actions| && actions[k + 1] == Wrote(actions[k].stream, Run(actions[k].message.node))
  }

  lemma ResetThenRunAppend(a: seq<Action>, b: seq<Action>)
    requires ResetThenRun(a) && ResetThenRun(b)
    ensures ResetThenRun(a + b)
  {
    forall k | 0 <= k < |a + b| && (a + b)[k].Wrote? && (a + b)[k].message.Reset?
      ensures k + 1 < |a + b| && (a + b)[k + 1] == Wrote((a + b)[k].stream, Run((a + b)[k].message.node))
    {
      if k < |a| {
        assert a[k] == (a + b)[k];
      } else {
        assert b[k - |a|] == (a + b)[k];
      }
    }
  }

  lemma {:induction false} ResetRoundThenRun(d: NodeDescription, streams: seq<(StreamId, NodeId)>,
                                             definitions: map<NodeId, CommonDefinitions>)
    ensures ResetThenRun(ResetRound(d, streams, definitions))
  {
    if streams != [] {
      ResetRoundThenRun(d, streams[..|streams| - 1], definitions);
      var s := streams[|streams| - 1];
      var r := ResetStream(d, s.0, s.1, definitions);
      assert ResetThenRun(r);
      ResetThenRunAppend(ResetRound(d, streams[..|streams| - 1], definitions), r);
    }
  }

  /** In the whole reset, a node is never reset without being restarted right after. */
  lemma {:induction false} ResetAllThenRun(descs: seq<(NodeId, NodeDescription)>, streams: seq<(StreamId, NodeId)>,
                                           definitions: map<NodeId, CommonDefinitions>)
    ensures ResetThenRun(ResetAll(descs, streams, definitions))
  {
    if descs != [] {
      ResetAllThenRun(descs[..|descs| - 1], streams, definitions);
      ResetRoundThenRun(descs[|descs| - 1].1, streams, definitions);
      ResetThenRunAppend(ResetAll(descs[..|descs| - 1], streams, definitions),
                         ResetRound(descs[|descs| - 1].1, streams, definitions));
    }
  }

  /** The body of the inner loop of the reset: one stream, one description. */
  method ResetThrough(iface: HttpInterface, d: NodeDescription, stream: StreamId, node: NodeId)
    modifies iface`actions
    ensures iface.actions == old(iface.actions) + ResetStream(d, stream, node, iface.commonDefinitions)
  {
    iface.Emit(Wrote(stream, Reset(node)));
    iface.Emit(Wrote(stream, Run(node)));
    if StartsWith(d.name, "thymio-II") {
      iface.Emit(SetVariableSent(node, ["motor.left.target", "0"]));
      iface.Emit(SetVariableSent(node, ["motor.right.target", "0"]));
    }
    if IndexOfName(DefinitionsIn(iface.commonDefinitions, node).events, "reset").Some? {
      iface.Emit(EventSent(node, ["reset"]));
    }
  }

  /** The inner loop of the reset: one description, every Aseba stream in turn. */
  method ResetRoundThrough(iface: HttpInterface, d: NodeDescription)
    modifies iface`actions
    ensures iface.actions == old(iface.actions) + ResetRound(d, iface.asebaStreams, iface.commonDefinitions)
  {
    var streams := iface.asebaStreams;
    var j := 0;
    while j < |streams|
      invariant 0 <= j <= |streams|
      invariant iface.actions == old(iface.actions) + ResetRound(d, streams[..j], iface.commonDefinitions)
    {
      assert streams[..j + 1][..j] == streams[..j];
      assert old(iface.actions) + ResetRound(d, streams[..j], iface.commonDefinitions) + ResetStream(d, streams[j].0, streams[j].1, iface.commonDefinitions)
          == old(iface.actions) + (ResetRound(d, streams[..j], iface.commonDefinitions) + ResetStream(d, streams[j].0, streams[j].1, iface.commonDefinitions));
      ResetThrough(iface, d, streams[j].0, streams[j].1);
      j := j + 1;
    }
    assert streams[..j] == streams;
  }

  /**
   * `ResetHandler::handleRequest`: for every description, reset and restart
   * the node behind every Aseba stream, stop a Thymio-II's motors, send the
   * `reset` event where the definitions declare one, then respond.
   */
  method HandleReset(iface: HttpInterface, request: HttpRequest)
    modifies iface`actions, request`response
    ensures iface.actions == old(iface.actions) + ResetAll(iface.nodesDescriptions, iface.asebaStreams, iface.commonDefinitions)
    ensures iface.nodesDescriptions == [] ==> request.response == old(request.response)
    ensures iface.nodesDescriptions != [] ==> request.response == Some(old(request.Current()))
  {
    var descs := iface.nodesDescriptions;
    var i := 0;
    while i < |descs|
      invariant 0 <= i <= |descs|
      invariant iface.actions == old(iface.actions) + ResetAll(descs[..i], iface.asebaStreams, iface.commonDefinitions)
      invariant i == 0 ==> request.response == old(request.response)
      invariant i > 0 ==> request.response == Some(old(request.Current()))
    {
      assert descs[..i + 1][..i] == descs[..i];
      assert old(iface.actions) + ResetAll(descs[..i], iface.asebaStreams, iface.commonDefinitions) + ResetRound(descs[i].1, iface.asebaStreams, iface.commonDefinitions)
          == old(iface.actions) + (ResetAll(descs[..i], iface.asebaStreams, iface.commonDefinitions) + ResetRound(descs[i].1, iface.asebaStreams, iface.commonDefinitions));
      ResetRoundThrough(iface, descs[i].1);
      request.Respond();
      i := i + 1;
    }
    assert descs[..i] == descs;
  }
}
