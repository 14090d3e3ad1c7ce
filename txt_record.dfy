/**
 * The TXT record of an Aseba target advertised over DNS-SD (section 6 of
 * RFC 6763): the fields `txtvers`, `protovers`, `type`, `ids` and `pids`, each
 * written as one length byte followed by `key=value`.
 *
 * A `std::string` here is a string of bytes; it is modelled as a Dafny string
 * whose characters each stand for one byte (code points below 256).
 */
module Zeroconf {
  import opened Wrappers
  import opened CLib

  /** Values are silently cut to this many bytes. */
  const MaxValueLength: nat := 20

  /** The keys `record()` writes, in order. */
  const RecordKeys: seq<string> := ["txtvers", "protovers", "type", "ids", "pids"]

  /** The byte of a character: its code point, which is below 256 for the strings built here. */
  predicate IsByteString(s: string) {
    forall i :: 0 <= i < |s| ==> (s[i] as int) < 0x100
  }

  /** `ostream::put(c)` with an `int` argument: the argument converted to `char`, that is, its low byte. */
  function LowByte(x: int): (c: char)
    ensures (c as int) < 0x100 && ((c as int) - x) % 0x100 == 0
  {
    (x % 0x100) as char
  }

  /** `value.substr(0, 20)`. */
  function Truncated(value: string): (r: string)
    ensures |r| == if |value| <= MaxValueLength then |value| else MaxValueLength
    ensures r == value[..|r|]
  {
    if |value| <= MaxValueLength then value else value[..MaxValueLength]
  }

  /**
   * The two bytes a vector element is packed into as written: `put(value << 8)`,
   * whose low byte is always zero, then `put(value % 0xff)`, with C's remainder.
   */
  function PackedPairAsWritten(value: int32): (r: string)
    ensures |r| == 2 && r[0] == 0 as char
    ensures IsByteString(r)
    ensures value >= 0 ==> (r[1] as int) == value % 0xff
  {
    [LowByte((value as int) * 0x100), LowByte(CRem(value, 0xff))]
  }

  /** As written, 255 is packed like 0 and 256 like 1: the high byte never reaches the record. */
  lemma PackedPairLosesHighByte()
    ensures PackedPairAsWritten(255) == PackedPairAsWritten(0) == [0 as char, 0 as char]
    ensures PackedPairAsWritten(256) == PackedPairAsWritten(1) == [0 as char, 1 as char]
  {
  }

  /**
   * The big-endian 16-bit pair the record format calls for: `put(value >> 8)`,
   * then `put(value & 0xff)` (an arithmetic shift is division rounded down).
   */
  function PackedPair(value: int32): (r: string)
    ensures |r| == 2
    ensures IsByteString(r)
  {
    [LowByte(value / 0x100), LowByte(value % 0x100)]
  }

  /** The value of a big-endian pair of bytes. */
  function PairValue(hi: char, lo: char): int {
    (hi as int) * 0x100 + (lo as int)
  }

  /** The pair holds the element modulo 2^16, and exactly the element when it is an unsigned 16-bit value. */
  lemma PackedPairValue(value: int32)
    ensures (PairValue(PackedPair(value)[0], PackedPair(value)[1]) - value) % 0x10000 == 0
    ensures 0 <= value < 0x10000 ==> PairValue(PackedPair(value)[0], PackedPair(value)[1]) == value
  {
    var v := value as int;
    var q := v / 0x100;
    var lo := v % 0x100;
    var hi := q % 0x100;
    assert v == 0x100 * q + lo;
    assert q == 0x100 * (q / 0x100) + hi;
    assert PackedPair(value)[0] as int == hi && PackedPair(value)[1] as int == lo;
    assert hi * 0x100 + lo - v == -0x10000 * (q / 0x100);
    if 0 <= v < 0x10000 {
      assert 0 <= q < 0x100;
      assert q / 0x100 == 0;
    }
  }

  /** The bytes `assign(key, vector<int>)` writes for a vector, two per element, as written. */
  function PackedAsWritten(values: seq<int32>): (r: string)
    ensures |r| == 2 * |values|
    ensures IsByteString(r)
  {
    if values == [] then [] else PackedAsWritten(values[..|values| - 1]) + PackedPairAsWritten(values[|values| - 1])
  }

  /** As written, element `i` sits at bytes `2i` and `2i + 1`, as its as-written pair. */
  lemma {:induction false} PackedAsWrittenElement(values: seq<int32>, i: nat)
    requires i < |values|
    ensures PackedAsWritten(values)[2 * i..2 * i + 2] == PackedPairAsWritten(values[i])
  {
    var init := values[..|values| - 1];
    if i < |init| {
      PackedAsWrittenElement(init, i);
      assert PackedAsWritten(values)[..2 * |init|] == PackedAsWritten(init);
      assert init[i] == values[i];
    } else {
      assert PackedAsWritten(values)[2 * i..] == PackedPairAsWritten(values[i]);
    }
  }

  /** The bytes of a vector of integers, two per element, big-endian as the record format intends. */
  function Packed(values: seq<int32>): (r: string)
    ensures |r| == 2 * |values|
    ensures IsByteString(r)
  {
    if values == [] then [] else Packed(values[..|values| - 1]) + PackedPair(values[|values| - 1])
  }

  /** Element `i` sits at bytes `2i` and `2i + 1`. */
  lemma {:induction false} PackedElement(values: seq<int32>, i: nat)
    requires i < |values|
    ensures Packed(values)[2 * i..2 * i + 2] == PackedPair(values[i])
  {
    var init := values[..|values| - 1];
    if i < |init| {
      PackedElement(init, i);
      assert Packed(values)[..2 * |init|] == Packed(init);
      assert init[i] == values[i];
    } else {
      assert Packed(values)[2 * i..] == PackedPair(values[i]);
    }
  }

  /** `key=value`. */
  function Field(key: string, value: string): string {
    key + "=" + value
  }

  /** What `add` writes for one field: the length of `key=value` as one byte, then `key=value`. */
  function Entry(key: string, value: string): string {
    [LowByte(|Field(key, value)|)] + Field(key, value)
  }

  /** The entries of several fields, one after the other. */
  function Entries(pairs: seq<(string, string)>): string {
    if pairs == [] then [] else Entry(pairs[0].0, pairs[0].1) + Entries(pairs[1..])
  }

  /** The fields in the order `record()` writes them, or `None` when one is missing (`fields.at` throws). */
  function RecordFields(fields: map<string, string>): (r: Option<seq<(string, string)>>)
    ensures r.Some? <==> forall k :: k in RecordKeys ==> k in fields
    ensures r.Some? ==> |r.value| == |RecordKeys|
                        && forall i :: 0 <= i < |RecordKeys| ==> r.value[i] == (RecordKeys[i], fields[RecordKeys[i]])
  {
    if forall k :: k in RecordKeys ==> k in fields then
      Some(seq(|RecordKeys|, i requires 0 <= i < |RecordKeys| => (RecordKeys[i], fields[RecordKeys[i]])))
    else None
  }

  // ---------------------------------------------------------------------------
  // Reading a record back

  /** The length-prefixed strings of a TXT record (section 6.1 of RFC 6763). */
  function Strings(txt: string): (r: Option<seq<string>>)
    decreases |txt|
  {
    if txt == [] then Some([])
    else
      var n := txt[0] as int;
      if 1 + n > |txt| then None
      else match Strings(txt[1 + n..])
        case None => None
        case Some(rest) => Some([txt[1..1 + n]] + rest)
  }

  /** A `key=value` string split at its first `=`; a string without one is a key without a value. */
  function SplitField(s: string): (string, string) {
    match Find(s, "=")
    case None => (s, "")
    case Some(i) => (s[..i], s[i + 1..])
  }

  function SplitFields(strings: seq<string>): (r: seq<(string, string)>)
    ensures |r| == |strings|
  {
    if strings == [] then [] else [SplitField(strings[0])] + SplitFields(strings[1..])
  }

  /** The fields a TXT record holds, in order. */
  function Decode(txt: string): Option<seq<(string, string)>> {
    match Strings(txt)
    case None => None
    case Some(strings) => Some(SplitFields(strings))
  }

  /** A field whose `key=value` fits the length byte, with a key free of `=`. */
  predicate Encodable(key: string, value: string) {
    |key| + 1 + |value| < 0x100 && '=' !in key
  }

  lemma SplitOfField(key: string, value: string)
    requires '=' !in key
    ensures SplitField(Field(key, value)) == (key, value)
  {
    var s := Field(key, value);
    assert OccursAt(s, "=", |key|);
    forall j | 0 <= j < |key|
      ensures !OccursAt(s, "=", j)
    {
      assert s[j] == key[j];
    }
    assert s[..|key|] == key;
    assert s[|key| + 1..] == value;
  }

  lemma EntryStrings(key: string, value: string, rest: string)
    requires Encodable(key, value)
    ensures Strings(Entry(key, value) + rest).Some? == Strings(rest).Some?
    ensures Strings(rest).Some? ==> Strings(Entry(key, value) + rest) == Some([Field(key, value)] + Strings(rest).value)
  {
    var f := Field(key, value);
    var txt := Entry(key, value) + rest;
    assert txt[0] as int == |f|;
    assert txt[1..1 + |f|] == f;
    assert txt[1 + |f|..] == rest;
  }

  /** One encodable entry in front of a decodable text decodes to one more pair in front. */
  lemma DecodeCons(key: string, value: string, rest: string)
    requires Encodable(key, value) && Decode(rest).Some?
    ensures Decode(Entry(key, value) + rest) == Some([(key, value)] + Decode(rest).value)
  {
    EntryStrings(key, value, rest);
    SplitOfField(key, value);
    var strings := Strings(rest).value;
    var all := [Field(key, value)] + strings;
    assert all[1..] == strings;
    assert SplitFields(all) == [(key, value)] + SplitFields(strings);
  }

  /** Decoding the entries of encodable fields gives the fields back, in order. */
  lemma {:induction false} DecodeEntries(pairs: seq<(string, string)>)
    requires forall i :: 0 <= i < |pairs| ==> Encodable(pairs[i].0, pairs[i].1)
    ensures Decode(Entries(pairs)) == Some(pairs)
  {
    if pairs != [] {
      assert pairs == [pairs[0]] + pairs[1..];
      DecodeEntries(pairs[1..]);
      DecodeCons(pairs[0].0, pairs[0].1, Entries(pairs[1..]));
    }
  }

  // ---------------------------------------------------------------------------
  // The record object

  /** Every value fits, and the five keys `record()` needs are present. */
  predicate ValidFields(fields: map<string, string>) {
    (forall k :: k in fields ==> |fields[k]| <= MaxValueLength)
    && forall k :: k in RecordKeys ==> k in fields
  }

  /** The fields the constructor sets. */
  function InitialFields(protovers: int32, targetType: string, ids: seq<int32>, pids: seq<int32>): (r: map<string, string>)
    ensures ValidFields(r)
    ensures r["txtvers"] == "1"
  {
    var r := map["txtvers" := "1",
                 "protovers" := IntToDecimal(protovers),
                 "type" := Truncated(targetType),
                 "ids" := Truncated(PackedAsWritten(ids)),
                 "pids" := Truncated(PackedAsWritten(pids))];
    InitialFieldsValid(r, protovers);
    r
  }

  lemma InitialFieldsValid(r: map<string, string>, protovers: int32)
    requires r.Keys == {"txtvers", "protovers", "type", "ids", "pids"}
    requires r["txtvers"] == "1" && r["protovers"] == IntToDecimal(protovers)
    requires |r["type"]| <= MaxValueLength && |r["ids"]| <= MaxValueLength && |r["pids"]| <= MaxValueLength
    ensures ValidFields(r)
  {
    DecimalOfInt32Fits(protovers);
  }

  class TxtRecord {
    /** Each key's value, at most 20 bytes. */
    var fields: map<string, string>

    /** Every value fits, and the five keys `record()` needs are present. */
    predicate Valid()
      reads this
    {
      ValidFields(fields)
    }

    /** The constructor for an Aseba target: protocol version, type name, node ids and product ids. */
    constructor (protovers: int32, targetType: string, ids: seq<int32>, pids: seq<int32>)
      ensures fields == InitialFields(protovers, targetType, ids, pids)
      ensures Valid()
    {
      fields := map[];
      new;
      AssignInt("txtvers", 1);
      AssignInt("protovers", protovers);
      AssignString("type", targetType);
      AssignVector("ids", ids);
      AssignVector("pids", pids);
      assert IntToDecimal(1) == "1";
      assert fields == InitialFields(protovers, targetType, ids, pids);
    }

    /** `assign(key, string)`: keep at most the first 20 bytes; a later assignment replaces an earlier one. */
    method AssignString(key: string, value: string)
      modifies this
      ensures fields == old(fields)[key := Truncated(value)]
      ensures old(Valid()) ==> Valid()
    {
      fields := fields[key := Truncated(value)];
    }

    /** `assign(key, int)`: the decimal numeral, which always fits. */
    method AssignInt(key: string, value: int32)
      modifies this
      ensures fields == old(fields)[key := IntToDecimal(value)]
      ensures old(Valid()) ==> Valid()
    {
      DecimalOfInt32Fits(value);
      AssignString(key, IntToDecimal(value));
    }

    /** `assign(key, vector<int>)`: two bytes per element as written, `value << 8` then `value % 0xff`, then cut to 20 bytes. */
    method AssignVector(key: string, values: seq<int32>)
      modifies this
      ensures fields == old(fields)[key := Truncated(PackedAsWritten(values))]
      ensures old(Valid()) ==> Valid()
    {
      var field: string := [];
      var i := 0;
      while i < |values|
        invariant 0 <= i <= |values|
        invariant field == PackedAsWritten(values[..i])
      {
        assert values[..i + 1][..i] == values[..i];
        field := field + [LowByte((values[i] as int) * 0x100)];
        field := field + [LowByte(CRem(values[i], 0xff))];
        i := i + 1;
      }
      assert values[..i] == values;
      AssignString(key, field);
    }

    /** `record()`: the five entries in their fixed order; `None` when a key is missing. */
    function Record(): (r: Option<string>)
      reads this
      ensures Valid() ==> r.Some?
    {
      match RecordFields(fields)
      case None => None
      case Some(pairs) => Some(Entries(pairs))
    }
  }

  // ---------------------------------------------------------------------------
  // Properties

  lemma {:induction false} DecimalLength(n: nat, k: nat)
    requires n < Power10(k) && k >= 1
    ensures |NatToDecimal(n)| <= k
  {
    if n >= 10 {
      DecimalLength(n / 10, k - 1);
    }
  }

  function Power10(k: nat): (r: nat)
    ensures r >= 1
  {
    if k == 0 then 1 else 10 * Power10(k - 1)
  }

  /** The decimal numeral of a C `int` has at most 11 characters, so it is never cut. */
  lemma DecimalOfInt32Fits(value: int32)
    ensures |IntToDecimal(value)| <= 11 && Truncated(IntToDecimal(value)) == IntToDecimal(value)
  {
    TenDigits();
    var d := IntToDecimal(value);
    if value < 0 {
      DecimalLength(-(value as int), 10);
      assert d == "-" + NatToDecimal(-(value as int));
    } else {
      DecimalLength(value as int, 10);
      assert d == NatToDecimal(value as int);
    }
    assert |d| <= MaxValueLength;
  }

  /** Every C `int` is below 10 to the power 10 in absolute value. */
  lemma TenDigits()
    ensures Power10(10) == 10000000000
  {
  }

  /** A stored integer reads back with `atoi` as the integer. */
  lemma StoredIntReadsBack(value: int32)
    ensures Atoi(Truncated(IntToDecimal(value))) == value
  {
    DecimalOfInt32Fits(value);
    AtoiOfDecimal(value);
  }

  /**
   * A stored vector keeps min(2n, 20) bytes; element `i` of the first ten is
   * stored as a zero byte followed, for a non-negative element, by the
   * element's remainder by 255.
   */
  lemma StoredVector(values: seq<int32>, i: nat)
    requires i < |values| && 2 * i + 2 <= MaxValueLength
    ensures |Truncated(PackedAsWritten(values))| == if 2 * |values| <= MaxValueLength then 2 * |values| else MaxValueLength
    ensures Truncated(PackedAsWritten(values))[2 * i..2 * i + 2] == PackedPairAsWritten(values[i])
    ensures Truncated(PackedAsWritten(values))[2 * i] == 0 as char
    ensures values[i] >= 0 ==> Truncated(PackedAsWritten(values))[2 * i + 1] as int == values[i] % 0xff
  {
    PackedAsWrittenElement(values, i);
    var stored := Truncated(PackedAsWritten(values));
    assert stored[2 * i..2 * i + 2] == PackedAsWritten(values)[2 * i..2 * i + 2] by {
      assert stored == PackedAsWritten(values)[..|stored|];
    }
  }

  /** As written, the ids 0 and 255 are stored as the same bytes, so the record cannot tell them apart. */
  lemma StoredIdsCollide()
    ensures Truncated(PackedAsWritten([0])) == Truncated(PackedAsWritten([255]))
    ensures Truncated(PackedAsWritten([1])) == Truncated(PackedAsWritten([256]))
  {
    assert [0][..0] == [255][..0] == [1][..0] == [256][..0] == [];
    PackedPairLosesHighByte();
  }

  /** The 16-bit values of a big-endian byte string, two bytes each; the count is implicit in the length. */
  function Unpacked(bytes: string): (r: seq<int>)
    requires |bytes| % 2 == 0
    ensures |r| == |bytes| / 2
  {
    if bytes == [] then []
    else Unpacked(bytes[..|bytes| - 2]) + [PairValue(bytes[|bytes| - 2], bytes[|bytes| - 1])]
  }

  /** Unpacking a value with one more pair at the end gives one more element. */
  lemma UnpackedSnoc(front: string, pair: string)
    requires |front| % 2 == 0 && |pair| == 2
    ensures Unpacked(front + pair) == Unpacked(front) + [PairValue(pair[0], pair[1])]
  {
    var b := front + pair;
    assert b[..|b| - 2] == front;
  }

  /** An unsigned 16-bit element reads back from its pair. */
  lemma PackedPairReadsBack(value: int32)
    requires 0 <= value < 0x10000
    ensures PairValue(PackedPair(value)[0], PackedPair(value)[1]) == value
  {
    PackedPairValue(value);
  }

  /** Unsigned 16-bit elements read back from their packed bytes, in order. */
  lemma {:induction false} UnpackPacked(values: seq<int32>)
    requires forall i :: 0 <= i < |values| ==> 0 <= values[i] < 0x10000
    ensures Unpacked(Packed(values)) == values
  {
    if values != [] {
      var last := values[|values| - 1];
      var init := values[..|values| - 1];
      assert values == init + [last];
      var front, pair := Packed(init), PackedPair(last);
      UnpackPacked(init);
      PackedPairReadsBack(last);
      UnpackedSnoc(front, pair);
      calc {
        Unpacked(Packed(values));
        Unpacked(front + pair);
        Unpacked(front) + [PairValue(pair[0], pair[1])];
        init + [last];
      }
    }
  }

  /** With the intended packing, up to ten node or product ids are stored whole and read back. */
  lemma StoredIdsReadBack(values: seq<int32>)
    requires 2 * |values| <= MaxValueLength
    requires forall i :: 0 <= i < |values| ==> 0 <= values[i] < 0x10000
    ensures Truncated(Packed(values)) == Packed(values)
    ensures Unpacked(Truncated(Packed(values))) == values
  {
    UnpackPacked(values);
  }

  /**
   * Each entry's length byte is the length of `key=value`, at most the key's
   * length plus 21, so it fits in one byte for any key under 235 bytes.
   */
  lemma LengthPrefix(key: string, value: string)
    requires |value| <= MaxValueLength && |key| + 21 < 0x100
    ensures Entry(key, value)[0] as int == |key| + 1 + |value| <= |key| + 21
  {
  }

  /** A valid record decodes back to its five fields, in the order txtvers, protovers, type, ids, pids. */
  lemma RecordDecodes(txt: TxtRecord)
    requires txt.Valid()
    ensures Decode(txt.Record().value) == Some([
      ("txtvers", txt.fields["txtvers"]), ("protovers", txt.fields["protovers"]), ("type", txt.fields["type"]),
      ("ids", txt.fields["ids"]), ("pids", txt.fields["pids"])])
  {
    var pairs := RecordFields(txt.fields).value;
    assert pairs == [
      ("txtvers", txt.fields["txtvers"]), ("protovers", txt.fields["protovers"]), ("type", txt.fields["type"]),
      ("ids", txt.fields["ids"]), ("pids", txt.fields["pids"])];
    forall i | 0 <= i < |pairs|
      ensures Encodable(pairs[i].0, pairs[i].1)
    {
      assert pairs[i].0 == RecordKeys[i];
      assert '=' !in RecordKeys[i];
    }
    DecodeEntries(pairs);
  }

  /** The record of the test target: type Fizbin, node ids 10 and 20, product ids 8 and 8. */
  lemma FizbinFields()
    ensures Truncated(PackedAsWritten([10, 20])) == [0 as char, 10 as char, 0 as char, 20 as char]
    ensures Truncated(PackedAsWritten([8, 8])) == [0 as char, 8 as char, 0 as char, 8 as char]
    ensures IntToDecimal(5) == "5" && Truncated("Fizbin") == "Fizbin"
  {
    assert [10, 20][..1] == [10];
    assert [8, 8][..1] == [8];
  }
}
