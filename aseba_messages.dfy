/**
 * The typed, in-memory form of the Aseba wire messages and node descriptions
 * that the bridge reads and writes. Their byte encoding belongs to the message
 * codec, which is not part of this model.
 */
module AsebaTypes {
  import opened Wrappers

  /** A signed 16-bit value, the unit of a node's variable memory. */
  type int16 = x: int | -0x8000 <= x < 0x8000

  type NodeId = nat

  datatype Message =
    | GetDescription
    | GetVariables(node: NodeId, start: nat, length: nat)
    | SetVariables(node: NodeId, start: nat, values: seq<int16>)
    | Variables(source: NodeId, start: nat, values: seq<int16>)
    | UserMessage(source: NodeId, eventType: nat, data: seq<int16>)
    | Reset(node: NodeId)
    | Run(node: NodeId)

  /** A variable a node declares in its description: its name, address and length. */
  datatype NamedVariable = NamedVariable(name: string, pos: nat, size: nat)

  datatype LocalEvent = LocalEvent(name: string, description: string)

  datatype NodeDescription = NodeDescription(
    name: string,
    protocolVersion: nat,
    bytecodeSize: nat,
    variablesSize: nat,
    stackSize: nat,
    namedVariables: seq<NamedVariable>,
    localEvents: seq<LocalEvent>)

  /** The description `std::map::operator[]` creates for an id it has not seen. */
  const EmptyDescription := NodeDescription("", 0, 0, 0, 0, [], [])

  /** An entry of an event or constant table: a name and a number. */
  datatype NamedValue = NamedValue(name: string, value: int)

  /** `NamedValuesVector::contains`: the index of the first entry with this name. */
  function IndexOfName(entries: seq<NamedValue>, name: string): (r: Option<nat>)
    ensures r.Some? ==> r.value < |entries| && entries[r.value].name == name
    ensures r.Some? ==> forall j :: 0 <= j < r.value ==> entries[j].name != name
    ensures r.None? ==> forall j :: 0 <= j < |entries| ==> entries[j].name != name
  {
    if entries == [] then None
    else if entries[0].name == name then Some(0)
    else match IndexOfName(entries[1..], name)
      case None => None
      case Some(i) => Some(i + 1)
  }

  /** The first variable of a description with this name. */
  function FindVariable(vars: seq<NamedVariable>, name: string): (r: Option<NamedVariable>)
    ensures r.Some? ==> r.value in vars && r.value.name == name
    ensures r.None? ==> forall j :: 0 <= j < |vars| ==> vars[j].name != name
  {
    if vars == [] then None
    else if vars[0].name == name then Some(vars[0])
    else FindVariable(vars[1..], name)
  }
}
