/**
 * The Scratch front end of the HTTP bridge: a subclass of the HTTP interface
 * that turns Scratch blocks into variable writes and events for a Thymio-II.
 * It keeps per-node state for the LED dial, the LED colours and the ids of
 * motions still running, and caches variable values as they are written and
 * as the robot reports them.
 */
module Scratch {
  import opened Wrappers
  import opened CLib
  import opened AsebaTypes

  // ---------------------------------------------------------------------------
  // Integer helpers

  /**
   * `clamp(var, min, max)`: the value written back into `var` and returned.
   * It is `min` below the range, `max` above it, and `var` itself inside it.
   */
  function Clamp(v: int, lo: int, hi: int): (r: int)
    ensures r == lo || r == hi || r == v
    ensures lo <= v <= hi ==> r == v
    ensures lo <= hi ==> lo <= r <= hi
  {
    if v < lo then lo else if v > hi then hi else v
  }

  /** Clamping twice is clamping once. */
  lemma ClampIdempotent(v: int, lo: int, hi: int)
    requires lo <= hi
    ensures Clamp(Clamp(v, lo, hi), lo, hi) == Clamp(v, lo, hi)
  {
  }

  /** Conversion of an `int` to `short`: two's complement wrap-around to 16 bits. */
  function ToShort(x: int): (r: int16)
    ensures -0x8000 <= x < 0x8000 ==> r == x
    ensures (r - x) % 0x1_0000 == 0
  {
    (x + 0x8000) % 0x1_0000 - 0x8000
  }

  /**
   * `std::stoi`: the `atoi` value, or `None` where `stoi` throws, which is
   * when no digit follows the blanks and the sign, or the value is out of
   * range of `int`.
   */
  function Stoi(s: string): (r: Option<int32>)
    ensures r.Some? ==> r.value == Atoi(s)
  {
    var t := SkipSpaces(s);
    var body := if t != [] && (t[0] == '-' || t[0] == '+') then t[1..] else t;
    if LeadingDigits(body) == [] then None
    else
      var v := Atoi(s);
      if -0x8000_0000 <= v < 0x8000_0000 then Some(v) else None
  }

  /** Every `int` written in decimal reads back with `stoi`. */
  lemma StoiOfDecimal(v: int32)
    ensures Stoi(IntToDecimal(v)) == Some(v)
  {
    var s := IntToDecimal(v);
    AtoiOfDecimal(v);
    assert v < 0 ==> |s| >= 2;
    var body := if v < 0 then s[1..] else s;
    assert IsDigit(body[0]);
    assert !IsSpace(s[0]);
    assert SkipSpaces(s) == s;
    assert LeadingDigits(body) != [];
  }

  // ---------------------------------------------------------------------------
  // Event arguments

  /** The decimal numerals of unsigned values (`append_strings_unsigned_vector`). */
  function Numerals(values: seq<nat>): (r: seq<string>)
    ensures |r| == |values|
  {
    if values == [] then [] else Numerals(values[..|values| - 1]) + [NatToDecimal(values[|values| - 1])]
  }

  /** Each numeral is all digits and reads back with `atoi` as its value. */
  lemma {:induction false} NumeralsReadBack(values: seq<nat>)
    ensures forall i :: 0 <= i < |values| ==> AllDigits(Numerals(values)[i]) && Atoi(Numerals(values)[i]) == values[i]
  {
    if values != [] {
      var last := |values| - 1;
      var init := values[..last];
      NumeralsReadBack(init);
      assert Numerals(values) == Numerals(init) + [NatToDecimal(values[last])];
      forall i | 0 <= i < |values|
        ensures AllDigits(Numerals(values)[i]) && Atoi(Numerals(values)[i]) == values[i]
      {
        if i < last {
          assert Numerals(values)[i] == Numerals(init)[i] && values[i] == init[i];
        } else {
          AtoiOfNatural(values[last]);
        }
      }
    }
  }

  /** Zeros are written as "0". */
  lemma {:induction false} NumeralsOfZeros(n: nat)
    ensures Numerals(seq(n, _ => 0)) == seq(n, _ => "0")
  {
    if n > 0 {
      NumeralsOfZeros(n - 1);
      assert seq(n, _ => 0)[..n - 1] == seq(n - 1, _ => 0);
      assert NatToDecimal(0) == "0";
      assert seq(n, _ => "0") == seq(n - 1, _ => "0") + ["0"];
    }
  }

  /** `append_strings_unsigned_vector(vec, result)`: `result` followed by the numerals of `vec`. */
  method AppendNumerals(values: seq<nat>, result: seq<string>) returns (r: seq<string>)
    ensures r == result + Numerals(values)
  {
    r := result;
    var i := 0;
    while i < |values|
      invariant 0 <= i <= |values|
      invariant r == result + Numerals(values[..i])
    {
      assert values[..i + 1][..i] == values[..i];
      assert Numerals(values[..i + 1]) == Numerals(values[..i]) + [NatToDecimal(values[i])];
      r := r + [NatToDecimal(values[i])];
      i := i + 1;
    }
    assert values[..i] == values;
  }

  /** Which of the nine positions of a ring the dial selects (0 for none), counted in `unit`s. */
  function Ring(dial: nat, unit: nat): nat
    requires unit > 0
  {
    (dial / unit) % 9
  }

  /**
   * The eight circle LEDs of a dial value: the LED `dial % 8` at 8, the LED
   * before the second ring position at 24 and the LED before the third ring
   * position at 32, each later write covering an earlier one.
   */
  function CircleLeds(dial: nat): (r: seq<nat>)
    ensures |r| == 8
    ensures forall i :: 0 <= i < 8 ==> r[i] in {0, 8, 24, 32}
    ensures forall i :: 0 <= i < 8 ==> (r[i] == 32 <==> Ring(dial, 72) == i + 1)
    ensures forall i :: 0 <= i < 8 ==> (r[i] == 24 <==> Ring(dial, 8) == i + 1 && Ring(dial, 72) != i + 1)
    ensures forall i :: 0 <= i < 8 ==> (r[i] == 8 <==> dial % 8 == i && Ring(dial, 8) != i + 1 && Ring(dial, 72) != i + 1)
  {
    var leds := [0, 0, 0, 0, 0, 0, 0, 0][dial % 8 := 8];
    var leds := if Ring(dial, 8) != 0 then leds[Ring(dial, 8) - 1 := 24] else leds;
    if Ring(dial, 72) != 0 then leds[Ring(dial, 72) - 1 := 32] else leds
  }

  /** `makeLedsCircleVector(dial)`: the arguments of the `V_leds_circle` event. */
  function LedsCircleVector(dial: nat): (r: seq<string>)
    ensures |r| == 9 && r[0] == "V_leds_circle"
  {
    ["V_leds_circle"] + Numerals(CircleLeds(dial))
  }

  /** The colour wheel has 198 steps, 33 per sixth. */
  const WheelSize: nat := 198

  /**
   * The red, green and blue levels of a colour on the wheel: one component
   * at 33, one at 0 and one rising or falling with the position in the
   * sixth. Past the wheel all three are 0.
   */
  function RgbLeds(color: nat): (r: seq<nat>)
    ensures |r| == 3
    ensures forall i :: 0 <= i < 3 ==> r[i] <= 33
    ensures color < WheelSize ==> 33 in r && 0 in r
    ensures color >= WheelSize ==> r == [0, 0, 0]
  {
    var step := color % 33;
    match color / 33
    case 0 => [33, step, 0]
    case 1 => [33 - step, 33, 0]
    case 2 => [0, 33, step]
    case 3 => [0, 33 - step, 33]
    case 4 => [step, 0, 33]
    case 5 => [33, 0, 33 - step]
    case _ => [0, 0, 0]
  }

  /** Neighbouring colours of the wheel, including the last and the first, differ by at most one level per component. */
  lemma RgbWheelContinuous(color: nat)
    requires color < WheelSize
    ensures forall i :: 0 <= i < 3 ==>
              RgbLeds((color + 1) % 198)[i] <= RgbLeds(color)[i] + 1 && RgbLeds(color)[i] <= RgbLeds((color + 1) % 198)[i] + 1
  {
    var next := (color + 1) % 198;
    if color % 33 == 32 {
      assert next / 33 == (color / 33 + 1) % 6 && next % 33 == 0;
    } else {
      assert next / 33 == color / 33 && next % 33 == color % 33 + 1;
    }
  }

  /** `makeLedsRGBVector(color)`: the arguments of the `V_leds_top` event. */
  function LedsTopVector(color: nat): (r: seq<string>)
    ensures |r| == 4 && r[0] == "V_leds_top"
  {
    ["V_leds_top"] + Numerals(RgbLeds(color))
  }

  /** The arguments of a `V_leds_bottom` event for the bottom LED `side` ("0" or "1"). */
  function LedsBottomVector(side: string, color: nat): (r: seq<string>)
    ensures |r| == 5 && r[0] == "V_leds_bottom" && r[1] == side
  {
    ["V_leds_bottom", side] + Numerals(RgbLeds(color))
  }

  /** The bottom-LED arguments built from the top-LED ones by renaming the event and inserting the side. */
  lemma BottomFromTop(side: string, color: nat)
    ensures var top := LedsTopVector(color)[0 := "V_leds_bottom"];
      [top[0], side] + top[1..] == LedsBottomVector(side, color)
    ensures var top := LedsTopVector(color);
      ([top[0], side] + top[1..])[0 := "V_leds_bottom"] == LedsBottomVector(side, color)
  {
    var n := Numerals(RgbLeds(color));
    assert LedsTopVector(color)[1..] == n;
    assert LedsTopVector(color)[0 := "V_leds_bottom"][1..] == n;
  }

  // ---------------------------------------------------------------------------
  // Motion

  /** A queued motion of `Q_add_motion`: its duration in 100 Hz ticks and the two wheel speeds. */
  datatype Motion = Motion(time: int, left: int, right: int)

  /**
   * `scratch_move mm`: a straight motion with both wheels at the same speed,
   * forward iff `mm > 0`. The speed is `|mm|` clamped to [20, 150], scaled by
   * 32/10, and the time is `|mm| * 100 / speed` before scaling.
   */
  function MoveMotion(mm: int): (m: Motion)
    ensures m.left == m.right
    ensures m.left > 0 <==> mm > 0
    ensures 64 <= Abs(m.left) <= 480
    ensures 20 <= Abs(mm) <= 150 ==> m.time == 100 && Abs(m.left) == Abs(mm) * 32 / 10
    ensures Abs(mm) < 20 ==> m.time == 5 * Abs(mm) && Abs(m.left) == 64
    ensures Abs(mm) > 150 ==> m.time == Abs(mm) * 100 / 150 && Abs(m.left) == 480
  {
    var speed := Clamp(Abs(mm), 20, 150);
    var time := Abs(mm) * 100 / speed;
    MoveTime(Abs(mm), speed);
    var scaled := speed * 32 / 10;
    var signed := if mm > 0 then scaled else -scaled;
    Motion(time, signed, signed)
  }

  lemma MoveTime(distance: nat, speed: nat)
    requires speed == Clamp(distance, 20, 150)
    ensures distance < 20 ==> distance * 100 / speed == 5 * distance
    ensures 20 <= distance <= 150 ==> distance * 100 / speed == 100
  {
    if distance < 20 {
      assert distance * 100 == 20 * (5 * distance);
    } else if distance <= 150 {
      assert distance * 100 == speed * 100;
    }
  }

  // ---------------------------------------------------------------------------
  // The dial

  /** The limit of `scratch_next_dial_limit n`: C's `n % 648`, converted to `unsigned`. */
  function DialLimit(arg: int32): nat {
    U32(CRem(arg, 648))
  }

  /**
   * The next dial value, `(dial + 1) % limit` in unsigned arithmetic; `None`
   * for a zero limit, where the source divides by zero.
   */
  function NextDialValue(dial: nat, limit: nat): (r: Option<nat>)
    requires dial < U32Modulus && limit < U32Modulus
    ensures r.Some? <==> limit != 0
    ensures r.Some? ==> r.value < limit
    ensures r.Some? && dial + 1 < limit ==> r.value == dial + 1
    ensures r.Some? && dial + 1 == limit ==> r.value == 0
  {
    if limit == 0 then None else Some(U32(dial + 1) % limit)
  }

  /** A positive argument's limit is its remainder modulo 648; a multiple of 648 gives the limit 0. */
  lemma DialLimitOfPositive(arg: int32)
    requires arg > 0
    ensures DialLimit(arg) == arg % 648 < 648
  {
  }

  /** A negative argument wraps to a limit of at least 2^32 - 647. */
  lemma DialLimitOfNegative(arg: int32)
    requires arg < 0 && CRem(arg, 648) != 0
    ensures DialLimit(arg) >= U32Modulus - 647
  {
    assert U32(CRem(arg, 648)) == CRem(arg, 648) + U32Modulus;
  }

  // ---------------------------------------------------------------------------
  // LED slots

  /** The LED slots a mask selects: bit 0 the top LED, bit 1 the left bottom LED, bit 2 the right bottom LED. */
  function Slots(mask: nat): (r: set<nat>)
    ensures r <= {0, 1, 2}
    ensures 0 in r <==> mask % 2 == 1
    ensures 1 in r <==> (mask / 2) % 2 == 1
    ensures 2 in r <==> (mask / 4) % 2 == 1
  {
    (if mask % 2 == 1 then {0} else {})
    + (if (mask / 2) % 2 == 1 then {1} else {})
    + (if (mask / 4) % 2 == 1 then {2} else {})
  }

  /** The mask of a request argument: `n & 7`, that is `n` modulo 8 in two's complement. */
  function LedMask(arg: int32): (r: nat)
    ensures r < 8
  {
    arg % 8
  }

  /** Masks 1, 2 and 4 select one slot each, 7 all three, 0 none. */
  lemma SlotsOfMasks()
    ensures Slots(1) == {0} && Slots(2) == {1} && Slots(4) == {2}
    ensures Slots(7) == {0, 1, 2} && Slots(0) == {}
  {
  }

  type Slot = (NodeId, nat)

  /** The LED table with the given slots (among 0, 1 and 2) of `node` set to `value`. */
  function Painted(leds: map<Slot, nat>, node: NodeId, slots: set<nat>, value: nat): map<Slot, nat> {
    var top := if 0 in slots then leds[(node, 0) := value] else leds;
    var left := if 1 in slots then top[(node, 1) := value] else top;
    if 2 in slots then left[(node, 2) := value] else left
  }

  /** Painting sets exactly the selected slots of the node, adds no other key and keeps every other slot. */
  lemma PaintedSlots(leds: map<Slot, nat>, node: NodeId, slots: set<nat>, value: nat)
    requires slots <= {0, 1, 2}
    ensures var r := Painted(leds, node, slots, value);
      && (forall s :: s in slots ==> (node, s) in r && r[(node, s)] == value)
      && (forall k :: k in leds && !(k.0 == node && k.1 in slots) ==> k in r && r[k] == leds[k])
      && r.Keys == leds.Keys + set s | s in slots :: (node, s)
  {
  }

  /** The level of one LED slot; a slot never set reads 0 (`std::map::operator[]`). */
  function LedLevel(leds: map<Slot, nat>, slot: Slot): nat {
    if slot in leds then leds[slot] else 0
  }

  /** The colour of a slot moved `delta` steps round the wheel, in unsigned arithmetic. */
  function Shifted(level: nat, delta: nat): (r: nat)
    ensures r < WheelSize
    ensures level + delta < U32Modulus ==> r == (level + delta) % WheelSize
  {
    U32(level + delta) % WheelSize
  }

  // ---------------------------------------------------------------------------
  // The robot state report

  /** The variables an `R_state` event reports, in the order of its payload. */
  const StateNames: seq<string> := [
    "acc", "angle.front",
    "button.backward", "button.center", "button.forward", "button.left", "button.right",
    "distance.back", "distance.front", "mic.intensity", "mic.threshold",
    "motor.left.speed", "motor.left.target", "motor.right.speed", "motor.right.target",
    "odo.delta", "odo.theta", "odo.x", "odo.y",
    "prox.comm.rx", "prox.comm.tx", "prox.ground.delta", "prox.horizontal", "temperature"]

  /** The number of values an `R_state` payload carries. */
  const StatePayloadSize: nat := 29

  function Pow2(k: nat): (r: nat)
    ensures r >= 1
  {
    if k == 0 then 1 else 2 * Pow2(k - 1)
  }

  /** `x >> k` on a (promoted) `short`: an arithmetic shift, rounding toward minus infinity. */
  function ShiftRight(x: int, k: nat): int {
    x / Pow2(k)
  }

  /** A button's state as the source computes it: `(buttons >> k) % 1`. */
  function ButtonAsWritten(buttons: int, k: nat): int16 {
    CRem(ShiftRight(buttons, k), 1)
  }

  /** Whatever the payload, every button reads as released. */
  lemma ButtonAlwaysReleased(buttons: int, k: nat)
    ensures ButtonAsWritten(buttons, k) == 0
  {
  }

  /** A button's state as the payload packs it: bit `k` of the buttons word. */
  function Button(buttons: int, k: nat): (r: int16)
    ensures r == 0 || r == 1
  {
    ShiftRight(buttons, k) % 2
  }

  /** The five button bits put back together give the low five bits of the word. */
  lemma ButtonsRecombine(buttons: int)
    ensures Button(buttons, 0) + 2 * Button(buttons, 1) + 4 * Button(buttons, 2)
            + 8 * Button(buttons, 3) + 16 * Button(buttons, 4) == buttons % 32
  {
    LowBits(buttons, 5);
    assert Pow2(1) == 2 && Pow2(2) == 4 && Pow2(3) == 8 && Pow2(4) == 16 && Pow2(5) == 32;
    assert BitsValue(buttons, 1) == Button(buttons, 0);
    assert BitsValue(buttons, 2) == BitsValue(buttons, 1) + 2 * Button(buttons, 1);
    assert BitsValue(buttons, 3) == BitsValue(buttons, 2) + 4 * Button(buttons, 2);
    assert BitsValue(buttons, 4) == BitsValue(buttons, 3) + 8 * Button(buttons, 3);
  }

  /** The sum of the first `k` bits of `x`, bit `j` weighted `2^j`. */
  function BitsValue(x: int, k: nat): int {
    if k == 0 then 0 else BitsValue(x, k - 1) + Pow2(k - 1) * Button(x, k - 1)
  }

  lemma {:induction false} LowBits(x: int, k: nat)
    ensures BitsValue(x, k) == x % Pow2(k)
  {
    if k > 0 {
      LowBits(x, k - 1);
      SplitMod(x, Pow2(k - 1));
    }
  }

  /** `x % 2p` is `x % p` plus `p` times the parity of `x / p`. */
  lemma SplitMod(x: int, p: nat)
    requires p >= 1
    ensures x % (2 * p) == x % p + p * ((x / p) % 2)
  {
    var q := x / p;
    var r := x % p;
    var q2 := q / 2;
    var b := q % 2;
    assert x == (2 * p) * q2 + (p * b + r) by {
      assert x == p * q + r;
      assert q == 2 * q2 + b;
      assert p * q == p * (2 * q2) + p * b;
    }
    assert 0 <= p * b + r < 2 * p by {
      assert b == 0 || b == 1;
    }
    DivModUnique(x, 2 * p, q2, p * b + r);
  }

  /** The quotient and remainder of `x` by `d` are the only pair with the remainder in [0, d). */
  lemma DivModUnique(x: int, d: int, q: int, r: int)
    requires d > 0 && x == d * q + r && 0 <= r < d
    ensures x % d == r && x / d == q
  {
    var k := q - x / d;
    assert d * k == x % d - r by {
      assert x == d * (x / d) + x % d;
      assert d * k == d * q - d * (x / d);
    }
  }

  /**
   * The values an `R_state` payload gives each state variable, in payload
   * order: acc from values 0 to 2, angle.front from value 3, the five
   * buttons as `(value 4 >> k) % 1`, one value each up to prox.comm.tx,
   * prox.ground.delta from values 19 and 20, prox.horizontal from 21 to 27
   * and temperature from value 28.
   */
  function StateEntries(data: seq<int16>): (r: seq<(string, seq<int16>)>)
    requires |data| >= StatePayloadSize
    ensures |r| == |StateNames|
    ensures forall i :: 0 <= i < |r| ==> r[i].0 == StateNames[i]
  {
    [("acc", data[0..3]), ("angle.front", data[3..4]),
     ("button.backward", [ButtonAsWritten(data[4], 4)]), ("button.center", [ButtonAsWritten(data[4], 3)]),
     ("button.forward", [ButtonAsWritten(data[4], 2)]), ("button.left", [ButtonAsWritten(data[4], 1)]),
     ("button.right", [ButtonAsWritten(data[4], 0)]),
     ("distance.back", [data[5]]), ("distance.front", [data[6]]),
     ("mic.intensity", [data[7]]), ("mic.threshold", [data[8]]),
     ("motor.left.speed", [data[9]]), ("motor.left.target", [data[10]]),
     ("motor.right.speed", [data[11]]), ("motor.right.target", [data[12]]),
     ("odo.delta", [data[13]]), ("odo.theta", [data[14]]), ("odo.x", [data[15]]), ("odo.y", [data[16]]),
     ("prox.comm.rx", [data[17]]), ("prox.comm.tx", [data[18]]),
     ("prox.ground.delta", data[19..21]), ("prox.horizontal", data[21..28]),
     ("temperature", [data[28]])]
  }

  /** The guard on an `R_state` event as written: any non-empty payload. */
  predicate StateGuardAsWritten(data: seq<int16>) {
    |data| >= 1
  }

  /** The guard the state report needs: the whole 29-value payload. */
  predicate StateGuard(data: seq<int16>) {
    |data| >= StatePayloadSize
  }

  /** A one-value `R_state` payload passes the guard as written but is too short for the report. */
  lemma ShortStatePasses()
    ensures StateGuardAsWritten([0]) && !StateGuard([0])
  {
  }

  /** The corrected guard admits exactly the payloads the report can read. */
  lemma StateGuardSuffices(data: seq<int16>)
    requires StateGuard(data)
    ensures StateGuardAsWritten(data) && |StateEntries(data)| == |StateNames|
  {
  }

  // ---------------------------------------------------------------------------
  // Requests

  /** The commands of a `/nodes/<ids>/<command>/<arguments>` request. */
  datatype Command =
    | Start(left: int32, right: int32)
    /** The arguments are only read, with `stoi`, once both motor targets are found cached. */
    | ChangeSpeed(leftArgument: Option<int32>, rightArgument: Option<int32>)
    | Stop
    | SetDial(dial: int32)
    | NextDialLimit(limit: int32)
    | NextDial
    | ClearLeds
    | SetLeds(color: int32, mask: int32)
    | ChangeLeds(delta: int32, mask: int32)
    | Move(busyId: int32, mm: int32)
    | SoundFreq
    /** `scratch_avoid`, `scratch_turn` and `scratch_arc`, which this model leaves out. */
    | Unmodelled
    | Unknown

  /** Token `i` read with `stoi`; `None` where the token is missing or `stoi` throws. */
  function Argument(tokens: seq<string>, i: nat): Option<int32> {
    if i < |tokens| then Stoi(tokens[i]) else None
  }

  /**
   * The command named by token 2, tried in the source's order, with its
   * arguments from tokens 3 and 4; `None` where an argument is missing or
   * is not a number, except for `scratch_change_speed`, which reads its
   * arguments later. A command name only has to start with the keyword.
   */
  function ParseCommand(tokens: seq<string>): Option<Command>
    requires |tokens| >= 3
  {
    var name := tokens[2];
    var a := Argument(tokens, 3);
    var b := Argument(tokens, 4);
    if StartsWith(name, "scratch_start") then
      if a.Some? && b.Some? then Some(Start(a.value, b.value)) else None
    else if StartsWith(name, "scratch_change_speed") then
      Some(ChangeSpeed(a, b))
    else if StartsWith(name, "scratch_stop") then Some(Stop)
    else if StartsWith(name, "scratch_set_dial") then
      if a.Some? then Some(SetDial(a.value)) else None
    else if StartsWith(name, "scratch_next_dial_limit") then
      if a.Some? then Some(NextDialLimit(a.value)) else None
    else if StartsWith(name, "scratch_next_dial") then Some(NextDial)
    else if StartsWith(name, "scratch_clear_leds") then Some(ClearLeds)
    else if StartsWith(name, "scratch_set_leds") then
      if a.Some? && b.Some? then Some(SetLeds(a.value, b.value)) else None
    else if StartsWith(name, "scratch_change_leds") then
      if a.Some? && b.Some? then Some(ChangeLeds(a.value, b.value)) else None
    else if StartsWith(name, "scratch_avoid") then Some(Unmodelled)
    else if StartsWith(name, "scratch_move") then
      if a.Some? && b.Some? then Some(Move(a.value, b.value)) else None
    else if StartsWith(name, "scratch_turn") || StartsWith(name, "scratch_arc") then Some(Unmodelled)
    else if StartsWith(name, "scratch_sound_freq") then Some(SoundFreq)
    else Some(Unknown)
  }

  /**
   * `scratch_next_dial_limit` is recognised before `scratch_next_dial`,
   * which is a prefix of it.
   */
  lemma LimitBeforeNextDial(tokens: seq<string>)
    requires |tokens| >= 4 && tokens[2] == "scratch_next_dial_limit" && Stoi(tokens[3]).Some?
    ensures ParseCommand(tokens) == Some(NextDialLimit(Stoi(tokens[3]).value))
    ensures StartsWith(tokens[2], "scratch_next_dial")
  {
    var name := tokens[2];
    DiffersAt(name, "scratch_start", 8);
    DiffersAt(name, "scratch_change_speed", 8);
    DiffersAt(name, "scratch_stop", 8);
    DiffersAt(name, "scratch_set_dial", 8);
    assert name[..|name|] == name;
    assert name[..17] == "scratch_next_dial";
  }

  /** A string does not start with a keyword it differs from at position `k`. */
  lemma DiffersAt(s: string, p: string, k: nat)
    requires k < |s| && k < |p| && s[k] != p[k]
    ensures !StartsWith(s, p)
  {
  }

  /** A message sent to a node: a variable write (`sendSetVariable`) or an event (`sendEvent`). */
  datatype Sent = VariableSet(node: NodeId, args: seq<string>) | EventSent(node: NodeId, args: seq<string>)

  /** A finished HTTP response: its status and body. */
  datatype Reply = Reply(status: int, content: string)

  /**
   * The outcome of `routeRequest`: the responses it finished and whether it
   * passed the request on to the base class's routing; `Aborted` where the
   * source throws or divides by zero; `NotModelled` for the commands this
   * model leaves out.
   */
  datatype Routed = Answered(replies: seq<Reply>, passedOn: bool) | Aborted | NotModelled

  /** The parts of the interface's state a request can change. */
  datatype Part = DialPart | LedsPart | BusyPart | CachePart | SentPart

  /** A variable's address: its node and its position in the node's memory. */
  type Address = (NodeId, nat)

  /** A C `unsigned`. */
  type uint32 = x: int | 0 <= x < 0x1_0000_0000

  const LeftTarget: string := "motor.left.target"
  const RightTarget: string := "motor.right.target"

  /** The values `sendSetVariable` caches: `atoi` of each argument after the name, as `short`. */
  function WrittenValues(args: seq<string>): (r: seq<int16>)
    requires |args| >= 1
    ensures |r| == |args| - 1
    decreases |args|
  {
    if |args| == 1 then [] else WrittenValues(args[..|args| - 1]) + [ToShort(Atoi(args[|args| - 1]))]
  }

  /** One more argument caches one more value. */
  lemma WrittenValuesStep(args: seq<string>, i: nat)
    requires 1 <= i < |args|
    ensures WrittenValues(args[..i + 1]) == WrittenValues(args[..i]) + [ToShort(Atoi(args[i]))]
  {
    assert args[..i + 1][..i] == args[..i];
  }

  /** A variable write of one integer caches that integer, as `short`. */
  lemma WrittenNumber(name: string, v: int)
    ensures WrittenValues([name, IntToDecimal(v)]) == [ToShort(v)]
  {
    AtoiOfDecimal(v);
    assert [name, IntToDecimal(v)][..1] == [name];
    assert WrittenValues([name]) == [];
  }

  /** Writing the text "0" caches the single value 0. */
  lemma ZeroWritten(name: string)
    ensures WrittenValues([name, "0"]) == [0]
  {
    assert IntToDecimal(0) == "0";
    WrittenNumber(name, 0);
  }

  /** The cache after a write-through to a resolved address; an unresolved name leaves it alone. */
  function WriteThrough(cache: map<Address, seq<int16>>, address: Option<Address>, values: seq<int16>): (r: map<Address, seq<int16>>)
    ensures address.Some? ==> address.value in r && r[address.value] == values
    ensures address.Some? ==> forall a :: a in cache && a != address.value ==> a in r && r[a] == cache[a]
    ensures address.None? ==> r == cache
  {
    match address
    case None => cache
    case Some(a) => cache[a := values]
  }

  /** The cached value at an address; `operator[]` makes a missing entry an empty vector. */
  function CachedAt(cache: map<Address, seq<int16>>, address: Address): seq<int16> {
    if address in cache then cache[address] else []
  }

  /** The cached values of a name's address, if it resolves; none for a name that does not. */
  function Lookup(cache: map<Address, seq<int16>>, address: Option<Address>): seq<int16> {
    if address.Some? then CachedAt(cache, address.value) else []
  }

  /**
   * The cache after a read through `operator[]`: a missing entry is inserted
   * empty, and every entry already there is kept as it was.
   */
  function Touched(cache: map<Address, seq<int16>>, address: Option<Address>): (r: map<Address, seq<int16>>)
    ensures address.Some? ==> address.value in r && r[address.value] == Lookup(cache, address)
    ensures forall a :: a in cache ==> a in r && r[a] == cache[a]
    ensures forall a :: a in r ==> a in cache || Some(a) == address
    ensures Lookup(cache, address) != [] ==> r == cache
  {
    if address.Some? then cache[address.value := CachedAt(cache, address.value)] else cache
  }

  /** The arguments of a motor target write: the request value scaled by 32/10, truncated as C does. */
  function MotorArgs(name: string, value: int, offset: int): seq<string> {
    [name, IntToDecimal(CDiv(value * 32, 10) + offset)]
  }

  /** The arguments of a `Q_add_motion` event for a move. */
  function MoveArgs(busyId: int, mm: int): seq<string> {
    var m := MoveMotion(mm);
    ["Q_add_motion", IntToDecimal(busyId), IntToDecimal(m.time), IntToDecimal(m.left), IntToDecimal(m.right)]
  }

  /** The event that shows colour `color` on LED slot `slot`: the top LED, or the bottom LED "0" or "1". */
  function SlotEvent(node: NodeId, slot: nat, color: nat): Sent {
    if slot == 0 then EventSent(node, LedsTopVector(color))
    else EventSent(node, LedsBottomVector(if slot == 1 then "0" else "1", color))
  }

  /** The events `scratch_clear_leds` sends: every LED vector of the node, all zeros. */
  function ClearingEvents(node: NodeId): seq<Sent> {
    [EventSent(node, ["V_leds_circle"] + seq(8, _ => "0")),
     EventSent(node, ["V_leds_top"] + seq(3, _ => "0")),
     EventSent(node, ["V_leds_buttons"] + seq(4, _ => "0")),
     EventSent(node, ["V_leds_bottom"] + seq(4, _ => "0")),
     EventSent(node, ["V_leds_bottom", "1"] + seq(3, _ => "0"))]
  }

  /** The events for the selected slots, top first, slot `s` in colour `colours[s]`. */
  function SlotEvents(node: NodeId, slots: set<nat>, colours: seq<nat>): seq<Sent>
    requires |colours| == 3
  {
    (if 0 in slots then [SlotEvent(node, 0, colours[0])] else [])
    + (if 1 in slots then [SlotEvent(node, 1, colours[1])] else [])
    + (if 2 in slots then [SlotEvent(node, 2, colours[2])] else [])
  }

  /** The colours of the three slots of `node` each moved `delta` steps round the wheel. */
  function ShiftedLevels(leds: map<Slot, nat>, node: NodeId, delta: nat): (r: seq<nat>)
    ensures |r| == 3
  {
    [Shifted(LedLevel(leds, (node, 0)), delta), Shifted(LedLevel(leds, (node, 1)), delta),
     Shifted(LedLevel(leds, (node, 2)), delta)]
  }

  /** The LED table with each selected slot (among 0, 1 and 2) of `node` moved `delta` steps round the wheel. */
  function Recoloured(leds: map<Slot, nat>, node: NodeId, slots: set<nat>, delta: nat): map<Slot, nat> {
    var top := if 0 in slots then leds[(node, 0) := Shifted(LedLevel(leds, (node, 0)), delta)] else leds;
    var left := if 1 in slots then top[(node, 1) := Shifted(LedLevel(leds, (node, 1)), delta)] else top;
    if 2 in slots then left[(node, 2) := Shifted(LedLevel(leds, (node, 2)), delta)] else left
  }

  /** Recolouring moves exactly the selected slots of the node round the wheel, each from its own level, and keeps every other slot. */
  lemma RecolouredSlots(leds: map<Slot, nat>, node: NodeId, slots: set<nat>, delta: nat)
    requires slots <= {0, 1, 2}
    ensures var r := Recoloured(leds, node, slots, delta);
      && (forall s :: s in slots ==> (node, s) in r && r[(node, s)] == Shifted(LedLevel(leds, (node, s)), delta))
      && (forall k :: k in leds && !(k.0 == node && k.1 in slots) ==> k in r && r[k] == leds[k])
      && r.Keys == leds.Keys + set s | s in slots :: (node, s)
  {
  }

  /** The dial table with every node of `nodes` set to `value`. */
  function DialsSet(dial: map<NodeId, uint32>, nodes: seq<NodeId>, value: uint32): (r: map<NodeId, uint32>)
    ensures forall n :: n in nodes ==> n in r && r[n] == value
    ensures forall n :: n in dial && n !in nodes ==> n in r && r[n] == dial[n]
    ensures r.Keys == dial.Keys + set n | n in nodes
  {
    map n | n in dial.Keys + (set n | n in nodes) :: if n in nodes then value else dial[n]
  }

  /** Setting the dial of one more node is one more update of the table. */
  lemma DialsSetStep(dial: map<NodeId, uint32>, nodes: seq<NodeId>, n: NodeId, value: uint32)
    ensures DialsSet(dial, nodes, value)[n := value] == DialsSet(dial, nodes + [n], value)
  {
    var r := DialsSet(dial, nodes, value)[n := value];
    assert r.Keys == DialsSet(dial, nodes + [n], value).Keys;
  }

  /**
   * The state-variable addresses and the cache after storing report entries:
   * an entry whose name has no address yet gets address (0, 0) (`operator[]`),
   * then the cache at the name's address takes the entry's values.
   */
  function Stored(cache: map<Address, seq<int16>>, addresses: map<string, Address>, entries: seq<(string, seq<int16>)>)
    : (r: (map<Address, seq<int16>>, map<string, Address>))
  {
    if entries == [] then (cache, addresses)
    else
      var before := Stored(cache, addresses, entries[..|entries| - 1]);
      var e := entries[|entries| - 1];
      var known := if e.0 in before.1 then before.1 else before.1[e.0 := (0, 0)];
      (before.0[known[e.0] := e.1], known)
  }

  /** After storing, every entry's name has an address; the names that had none sit at (0, 0). */
  lemma {:induction false} StoredNamesAddressed(cache: map<Address, seq<int16>>, addresses: map<string, Address>,
                                                entries: seq<(string, seq<int16>)>)
    ensures forall n :: n in addresses ==>
              n in Stored(cache, addresses, entries).1 && Stored(cache, addresses, entries).1[n] == addresses[n]
    ensures forall i :: 0 <= i < |entries| ==> entries[i].0 in Stored(cache, addresses, entries).1
    ensures forall n :: n in Stored(cache, addresses, entries).1 && n !in addresses ==> Stored(cache, addresses, entries).1[n] == (0, 0)
  {
    if entries != [] {
      var init := entries[..|entries| - 1];
      StoredNamesAddressed(cache, addresses, init);
      forall i | 0 <= i < |entries| - 1
        ensures entries[i] == init[i]
      {
      }
    }
  }

  /** Entries whose names all have distinct addresses are stored each at its own address, and the addresses stay. */
  lemma {:induction false} StoredResolved(cache: map<Address, seq<int16>>, addresses: map<string, Address>,
                                          entries: seq<(string, seq<int16>)>)
    requires forall i :: 0 <= i < |entries| ==> entries[i].0 in addresses
    requires forall i, j :: 0 <= i < j < |entries| ==> addresses[entries[i].0] != addresses[entries[j].0]
    ensures Stored(cache, addresses, entries).1 == addresses
    ensures forall i :: 0 <= i < |entries| ==>
              CachedAt(Stored(cache, addresses, entries).0, addresses[entries[i].0]) == entries[i].1
  {
    if entries != [] {
      var init := entries[..|entries| - 1];
      var last := |entries| - 1;
      StoredResolved(cache, addresses, init);
      var before := Stored(cache, addresses, init);
      assert Stored(cache, addresses, entries) == (before.0[addresses[entries[last].0] := entries[last].1], addresses);
      forall i | 0 <= i < |entries|
        ensures CachedAt(Stored(cache, addresses, entries).0, addresses[entries[i].0]) == entries[i].1
      {
        if i < last {
          assert entries[i] == init[i];
          assert addresses[entries[i].0] != addresses[entries[last].0];
        }
      }
    }
  }

  /** The addresses the names resolve to on `node`. */
  function ResolvedAddresses(position: (NodeId, string) -> Option<nat>, node: NodeId, names: seq<string>): (r: map<string, Address>)
    ensures forall n :: n in r <==> n in names && position(node, n).Some?
    ensures forall n :: n in r ==> r[n] == (node, position(node, n).value)
  {
    map n | n in names && position(node, n).Some? :: (node, position(node, n).value)
  }

  /** One more name resolves to one more address, when the node has it. */
  lemma ResolvedStep(position: (NodeId, string) -> Option<nat>, node: NodeId, names: seq<string>, name: string)
    ensures ResolvedAddresses(position, node, names + [name])
      == match position(node, name)
         case None => ResolvedAddresses(position, node, names)
         case Some(pos) => ResolvedAddresses(position, node, names)[name := (node, pos)]
  {
    var longer := ResolvedAddresses(position, node, names + [name]);
    var shorter := ResolvedAddresses(position, node, names);
    assert forall n :: n in names + [name] <==> n in names || n == name;
    if position(node, name).Some? {
      assert longer.Keys == shorter.Keys + {name};
    } else {
      assert longer.Keys == shorter.Keys;
    }
  }

  /**
   * With every report name resolved to its own address, a 29-value payload
   * gives acc values 0 to 2, angle.front value 3, each button one bit of
   * value 4, motor.left.target value 10, prox.ground.delta values 19 and 20,
   * prox.horizontal values 21 to 27 and temperature value 28.
   */
  lemma StateReport(cache: map<Address, seq<int16>>, addresses: map<string, Address>, data: seq<int16>)
    requires StateGuard(data)
    requires forall i :: 0 <= i < |StateNames| ==> StateNames[i] in addresses
    requires forall i, j :: 0 <= i < j < |StateNames| ==> addresses[StateNames[i]] != addresses[StateNames[j]]
    ensures StateNames[0] == "acc" && StateNames[1] == "angle.front" && StateNames[2] == "button.backward"
    ensures StateNames[6] == "button.right" && StateNames[12] == "motor.left.target"
    ensures StateNames[21] == "prox.ground.delta" && StateNames[22] == "prox.horizontal" && StateNames[23] == "temperature"
    ensures Stored(cache, addresses, StateEntries(data)).1 == addresses
    ensures var r := Stored(cache, addresses, StateEntries(data)).0;
      CachedAt(r, addresses[StateNames[0]]) == data[0..3]
      && CachedAt(r, addresses[StateNames[1]]) == [data[3]]
      && CachedAt(r, addresses[StateNames[2]]) == [0]
      && CachedAt(r, addresses[StateNames[6]]) == [0]
      && CachedAt(r, addresses[StateNames[12]]) == [data[10]]
      && CachedAt(r, addresses[StateNames[21]]) == data[19..21]
      && CachedAt(r, addresses[StateNames[22]]) == data[21..28]
      && CachedAt(r, addresses[StateNames[23]]) == [data[28]]
  {
    var entries := StateEntries(data);
    StoredResolved(cache, addresses, entries);
    assert entries[1].1 == data[3..4] == [data[3]];
    ButtonAlwaysReleased(data[4], 4);
    ButtonAlwaysReleased(data[4], 0);
    assert entries[0].1 == data[0..3] && entries[2].1 == [0] && entries[6].1 == [0];
    assert entries[12].1 == [data[10]] && entries[21].1 == data[19..21];
    assert entries[22].1 == data[21..28] && entries[23].1 == [data[28]];
  }

  // ---------------------------------------------------------------------------
  // The interface

  class ScratchInterface {
    /**
     * `getVarAddrLen`: the position of a named variable on a node, when the
     * node's description and variable map both know it. The address's node
     * is the node itself.
     */
    const position: (NodeId, string) -> Option<nat>

    /** `scratch_dial`: the dial value of each node. */
    var dial: map<NodeId, uint32>
    /** `leds`: the colour of each node's top (0) and bottom (1, 2) LEDs. */
    var leds: map<Slot, nat>
    /** `busy_threads`: the ids of motions not yet reported ended. */
    var busyThreads: set<int>
    /** `variable_cache`: the last known values at each address. */
    var variableCache: map<Address, seq<int16>>
    /** `state_variable_addresses`: where each state-report variable lives. */
    var stateAddresses: map<string, Address>
    /** The messages sent to the nodes, in order. */
    var sent: seq<Sent>

    constructor (position: (NodeId, string) -> Option<nat>)
      ensures this.position == position
      ensures dial == map[] && leds == map[] && busyThreads == {} && variableCache == map[]
      ensures stateAddresses == map[] && sent == []
    {
      this.position := position;
      dial := map[];
      leds := map[];
      busyThreads := {};
      variableCache := map[];
      stateAddresses := map[];
      sent := [];
    }

    /** The address of a named variable of a node, if it has one. */
    function AddressOf(node: NodeId, name: string): (r: Option<Address>)
      ensures r.Some? <==> position(node, name).Some?
      ensures r.Some? ==> r.value == (node, position(node, name).value)
    {
      match position(node, name)
      case None => None
      case Some(pos) => Some((node, pos))
    }

    /** `incomingVariables`: a node's reported values replace the cache entry at their address. */
    method IncomingVariables(source: NodeId, start: nat, values: seq<int16>)
      modifies this`variableCache
      ensures variableCache == old(variableCache)[(source, start) := values]
    {
      variableCache := variableCache[(source, start) := values];
    }

    /** `setCachedVal`: store values at a named variable's address; true iff resolved and non-empty. */
    method SetCachedVal(node: NodeId, name: string, values: seq<int16>) returns (ok: bool)
      modifies this`variableCache
      ensures variableCache == WriteThrough(old(variableCache), AddressOf(node, name), values)
      ensures ok <==> AddressOf(node, name).Some? && values != []
    {
      ok := false;
      var address := AddressOf(node, name);
      if address.Some? {
        variableCache := variableCache[address.value := values];
        ok := values != [];
      }
    }

    /**
     * `getCachedVal`: the cached values of a named variable; false for an
     * unresolved name or an empty entry. Reading a missing entry inserts an
     * empty one.
     */
    method GetCachedVal(node: NodeId, name: string) returns (ok: bool, values: seq<int16>)
      modifies this`variableCache
      ensures values == Lookup(old(variableCache), AddressOf(node, name))
      ensures ok <==> values != []
      ensures variableCache == Touched(old(variableCache), AddressOf(node, name))
    {
      var address := AddressOf(node, name);
      if address.None? {
        return false, [];
      }
      values := CachedAt(variableCache, address.value);
      variableCache := variableCache[address.value := values];
      ok := values != [];
    }

    /** `sendSetVariable`: write the values through to the cache, then send the write. */
    method SendSetVariable(node: NodeId, args: seq<string>)
      requires |args| >= 1
      modifies this`variableCache, this`sent
      ensures variableCache == WriteThrough(old(variableCache), AddressOf(node, args[0]), WrittenValues(args))
      ensures sent == old(sent) + [VariableSet(node, args)]
    {
      var data: seq<int16> := [];
      var i := 1;
      while i < |args|
        invariant 1 <= i <= |args|
        invariant data == WrittenValues(args[..i])
        invariant variableCache == old(variableCache) && sent == old(sent)
      {
        WrittenValuesStep(args, i);
        data := data + [ToShort(Atoi(args[i]))];
        i := i + 1;
      }
      assert args[..i] == args;
      var _ := SetCachedVal(node, args[0], data);
      sent := sent + [VariableSet(node, args)];
    }

    /** `scratch_start left right`: both motor targets, scaled by 32/10. */
    method StartMotors(node: NodeId, left: int32, right: int32)
      modifies this`variableCache, this`sent
      ensures sent == old(sent) + [VariableSet(node, MotorArgs(LeftTarget, left, 0)), VariableSet(node, MotorArgs(RightTarget, right, 0))]
      ensures variableCache == WriteThrough(WriteThrough(old(variableCache), AddressOf(node, LeftTarget), [ToShort(CDiv(left * 32, 10))]),
                                            AddressOf(node, RightTarget), [ToShort(CDiv(right * 32, 10))])
    {
      WrittenNumber(LeftTarget, CDiv(left * 32, 10));
      WrittenNumber(RightTarget, CDiv(right * 32, 10));
      SendSetVariable(node, MotorArgs(LeftTarget, left, 0));
      SendSetVariable(node, MotorArgs(RightTarget, right, 0));
    }

    /**
     * `scratch_change_speed left right`: look up both cached motor targets;
     * a miss leaves the request unanswered (and the lookup may have inserted
     * an empty entry); with both found, a missing or non-numeric argument
     * aborts, and otherwise each target moves by 32/10 of its argument.
     */
    twostate predicate SpeedChanged(node: NodeId, left: Option<int32>, right: Option<int32>, r: Routed)
      reads this
    {
      var leftAt := AddressOf(node, LeftTarget);
      var rightAt := AddressOf(node, RightTarget);
      var l := Lookup(old(variableCache), leftAt);
      var rt := Lookup(old(variableCache), rightAt);
      dial == old(dial) && leds == old(leds) && busyThreads == old(busyThreads)
      && (l == [] ==> r == Answered([], false) && sent == old(sent) && variableCache == Touched(old(variableCache), leftAt))
      && (l != [] && rt == [] ==>
            r == Answered([], false) && sent == old(sent) && variableCache == Touched(old(variableCache), rightAt))
      && (l != [] && rt != [] && (left.None? || right.None?) ==>
            r == Aborted && sent == old(sent) && variableCache == old(variableCache))
      && (l != [] && rt != [] && left.Some? && right.Some? ==>
            r == Answered([Reply(204, "")], false)
            && sent == old(sent) + [VariableSet(node, MotorArgs(LeftTarget, left.value, l[0])),
                                    VariableSet(node, MotorArgs(RightTarget, right.value, rt[0]))]
            && variableCache == WriteThrough(WriteThrough(old(variableCache), leftAt, [ToShort(CDiv(left.value * 32, 10) + l[0])]),
                                             rightAt, [ToShort(CDiv(right.value * 32, 10) + rt[0])]))
    }

    /** `scratch_change_speed left right` on one node, as `SpeedChanged` states. */
    method ChangeSpeed(node: NodeId, left: Option<int32>, right: Option<int32>) returns (r: Routed)
      modifies this`variableCache, this`sent
      ensures SpeedChanged(node, left, right, r)
      ensures r.Answered? ==> !r.passedOn && |r.replies| <= 1
    {
      var okLeft, leftTarget := GetCachedVal(node, LeftTarget);
      if !okLeft {
        return Answered([], false);
      }
      assert variableCache == old(variableCache);
      var okRight, rightTarget := GetCachedVal(node, RightTarget);
      if !okRight {
        return Answered([], false);
      }
      assert variableCache == old(variableCache);
      if left.None? || right.None? {
        return Aborted;
      }
      AddToTargets(node, left.value, right.value, leftTarget[0], rightTarget[0]);
      r := Answered([Reply(204, "")], false);
    }

    /** Both motor targets set to 32/10 of their arguments plus the given offsets. */
    method AddToTargets(node: NodeId, left: int32, right: int32, leftOffset: int16, rightOffset: int16)
      modifies this`variableCache, this`sent
      ensures sent == old(sent) + [VariableSet(node, MotorArgs(LeftTarget, left, leftOffset)),
                                   VariableSet(node, MotorArgs(RightTarget, right, rightOffset))]
      ensures variableCache == WriteThrough(WriteThrough(old(variableCache), AddressOf(node, LeftTarget), [ToShort(CDiv(left * 32, 10) + leftOffset)]),
                                            AddressOf(node, RightTarget), [ToShort(CDiv(right * 32, 10) + rightOffset)])
    {
      SendNumber(node, LeftTarget, CDiv(left * 32, 10) + leftOffset);
      SendNumber(node, RightTarget, CDiv(right * 32, 10) + rightOffset);
    }

    /** `sendSetVariable` of one integer: the name and its numeral; the cache takes it as `short`. */
    method SendNumber(node: NodeId, name: string, value: int)
      modifies this`variableCache, this`sent
      ensures sent == old(sent) + [VariableSet(node, [name, IntToDecimal(value)])]
      ensures variableCache == WriteThrough(old(variableCache), AddressOf(node, name), [ToShort(value)])
    {
      WrittenNumber(name, value);
      SendSetVariable(node, [name, IntToDecimal(value)]);
    }

    /** `scratch_stop`: both motor targets to zero. */
    method StopMotors(node: NodeId)
      modifies this`variableCache, this`sent
      ensures sent == old(sent) + [VariableSet(node, [LeftTarget, "0"]), VariableSet(node, [RightTarget, "0"])]
      ensures variableCache == WriteThrough(WriteThrough(old(variableCache), AddressOf(node, LeftTarget), [0]),
                                            AddressOf(node, RightTarget), [0])
    {
      ZeroWritten(LeftTarget);
      ZeroWritten(RightTarget);
      SendSetVariable(node, [LeftTarget, "0"]);
      SendSetVariable(node, [RightTarget, "0"]);
    }

    /** `scratch_set_dial n`: the dial takes `n` as `unsigned` and the circle LEDs show it. */
    method SetDialOf(node: NodeId, value: int32)
      modifies this`dial, this`sent
      ensures dial == old(dial)[node := U32(value)]
      ensures sent == old(sent) + [EventSent(node, LedsCircleVector(U32(value)))]
    {
      dial := dial[node := U32(value)];
      sent := sent + [EventSent(node, LedsCircleVector(dial[node]))];
    }

    /** The dial of a node; a node never set reads 0. */
    function DialOf(node: NodeId): uint32
      reads this
    {
      if node in dial then dial[node] else 0
    }

    /**
     * `scratch_next_dial` (limit 8) and `scratch_next_dial_limit` (limit
     * `n % 648`): advance the dial modulo the limit and show it; false, and
     * nothing changed, for a zero limit.
     */
    method NextDialOf(node: NodeId, limit: uint32) returns (ok: bool)
      modifies this`dial, this`sent
      ensures ok <==> limit != 0
      ensures ok ==> dial == old(dial)[node := NextDialValue(old(DialOf(node)), limit).value]
                     && sent == old(sent) + [EventSent(node, LedsCircleVector(dial[node]))]
      ensures !ok ==> dial == old(dial) && sent == old(sent)
    {
      var next := NextDialValue(DialOf(node), limit);
      if next.None? {
        return false;
      }
      dial := dial[node := next.value];
      sent := sent + [EventSent(node, LedsCircleVector(dial[node]))];
      ok := true;
    }

    /** Send a vector variable `name` of `n` zeros: `name` followed by the numerals of `n` zeros. */
    method SendZeros(node: NodeId, name: string, n: nat) returns (args: seq<string>)
      modifies this`sent
      ensures args == [name] + seq(n, _ => "0")
      ensures sent == old(sent) + [EventSent(node, args)]
    {
      NumeralsOfZeros(n);
      args := AppendNumerals(seq(n, _ => 0), [name]);
      sent := sent + [EventSent(node, args)];
    }

    /** `scratch_clear_leds`: every LED off, and the three colour slots at 200 (off the wheel). */
    method ClearLedsOf(node: NodeId)
      modifies this`leds, this`sent
      ensures leds == Painted(old(leds), node, {0, 1, 2}, 200)
      ensures sent == old(sent) + ClearingEvents(node)
    {
      var args := SendZeros(node, "V_leds_circle", 8);
      args := SendZeros(node, "V_leds_top", 3);
      leds := leds[(node, 0) := 200];
      args := SendZeros(node, "V_leds_buttons", 4);
      args := args[0 := "V_leds_bottom"];
      assert args == ["V_leds_bottom"] + seq(4, _ => "0");
      sent := sent + [EventSent(node, args)];
      args := args[1 := "1"];
      assert args == ["V_leds_bottom", "1"] + seq(3, _ => "0");
      sent := sent + [EventSent(node, args)];
      leds := leds[(node, 1) := 200][(node, 2) := 200];
    }

    /** `scratch_set_leds color mask`: the selected slots take the colour and show it. */
    method SetLedsOf(node: NodeId, color: nat, mask: nat)
      modifies this`leds, this`sent
      ensures leds == Painted(old(leds), node, Slots(mask), color)
      ensures sent == old(sent) + SlotEvents(node, Slots(mask), [color, color, color])
    {
      var args := LedsTopVector(color);
      LightSlotIf(mask % 2 == 1, (node, 0), color, args);
      ghost var levels := Numerals(RgbLeds(color));
      args := [args[0], "0"] + args[1..];
      assert args[2..] == levels;
      assert args[0 := "V_leds_bottom"] == LedsBottomVector("0", color);
      LightSlotIf((mask / 2) % 2 == 1, (node, 1), color, args[0 := "V_leds_bottom"]);
      args := args[1 := "1"];
      assert args[2..] == levels;
      assert args[0 := "V_leds_bottom"] == LedsBottomVector("1", color);
      LightSlotIf((mask / 4) % 2 == 1, (node, 2), color, args[0 := "V_leds_bottom"]);
      ghost var events := SlotEvents(node, Slots(mask), [color, color, color]);
      assert sent == old(sent) + events;
    }

    /** One guarded `leds[slot] = color, sendEvent(node, args)`: nothing happens unless `on`. */
    method LightSlotIf(on: bool, slot: Slot, color: nat, args: seq<string>)
      modifies this`leds, this`sent
      ensures leds == if on then old(leds)[slot := color] else old(leds)
      ensures sent == old(sent) + if on then [EventSent(slot.0, args)] else []
    {
      if on {
        LightSlot(slot, color, args);
      }
    }

    /** `leds[slot] = color, sendEvent(node, args)`. */
    method LightSlot(slot: Slot, color: nat, args: seq<string>)
      modifies this`leds, this`sent
      ensures leds == old(leds)[slot := color]
      ensures sent == old(sent) + [EventSent(slot.0, args)]
    {
      leds := leds[slot := color];
      sent := sent + [EventSent(slot.0, args)];
    }

    /** `leds[slot] = (leds[slot] + delta) % 198`, in unsigned arithmetic; the new level is returned. */
    method ShiftLevel(slot: Slot, delta: nat) returns (level: nat)
      modifies this`leds
      ensures level == Shifted(LedLevel(old(leds), slot), delta)
      ensures leds == old(leds)[slot := level]
    {
      level := Shifted(LedLevel(leds, slot), delta);
      leds := leds[slot := level];
    }

    /** Show a colour on the bottom LED `side`: the top-LED arguments renamed, with the side inserted. */
    method SendBottom(node: NodeId, side: string, color: nat)
      modifies this`sent
      ensures sent == old(sent) + [EventSent(node, LedsBottomVector(side, color))]
    {
      var args := LedsTopVector(color);
      args := args[0 := "V_leds_bottom"];
      args := [args[0], side] + args[1..];
      BottomFromTop(side, color);
      sent := sent + [EventSent(node, args)];
    }

    /** `scratch_change_leds delta mask`: the selected slots move `delta` steps round the wheel and show it. */
    method ChangeLedsOf(node: NodeId, delta: nat, mask: nat)
      modifies this`leds, this`sent
      ensures leds == Recoloured(old(leds), node, Slots(mask), delta)
      ensures sent == old(sent) + SlotEvents(node, Slots(mask), ShiftedLevels(old(leds), node, delta))
    {
      if mask % 2 == 1 {
        var level := ShiftLevel((node, 0), delta);
        sent := sent + [EventSent(node, LedsTopVector(level))];
      }
      assert LedLevel(leds, (node, 1)) == LedLevel(old(leds), (node, 1));
      if (mask / 2) % 2 == 1 {
        var level := ShiftLevel((node, 1), delta);
        SendBottom(node, "0", level);
      }
      assert LedLevel(leds, (node, 2)) == LedLevel(old(leds), (node, 2));
      if (mask / 4) % 2 == 1 {
        var level := ShiftLevel((node, 2), delta);
        SendBottom(node, "1", level);
      }
    }

    /** `scratch_move busyId mm`: queue the motion, mark the id busy, and answer with the id. */
    method MoveOf(node: NodeId, busyId: int32, mm: int32) returns (reply: Reply)
      modifies this`busyThreads, this`sent
      ensures busyThreads == old(busyThreads) + {busyId as int}
      ensures sent == old(sent) + [EventSent(node, MoveArgs(busyId, mm))]
      ensures reply == Reply(200, IntToDecimal(busyId))
    {
      sent := sent + [EventSent(node, MoveArgs(busyId, mm))];
      busyThreads := busyThreads + {busyId as int};
      reply := Reply(200, IntToDecimal(busyId));
    }

    /** The command a request reaches the per-node handlers with, if it does. */
    static function Requested(tokens: seq<string>, ids: seq<NodeId>): Option<Command>
      requires tokens != []
    {
      if StartsWith(tokens[0], "poll") || !StartsWith(tokens[0], "nodes") || |tokens| == 1 || ids == [] || |tokens| < 3 then None
      else ParseCommand(tokens)
    }

    /** Whether a request names at least one node under `nodes`. */
    static predicate ReachesNodes(tokens: seq<string>, ids: seq<NodeId>)
      requires tokens != []
    {
      !StartsWith(tokens[0], "poll") && StartsWith(tokens[0], "nodes") && |tokens| > 1 && ids != []
    }

    /**
     * `routeRequest` for `/nodes/<ids>/<command>/...`: `ids` are the node
     * ids the second token names. Each command but `scratch_set_dial` acts
     * on the first node and finishes the request; `scratch_set_dial` acts on
     * every node, answers each, and then passes the request on.
     */
    method Route(tokens: seq<string>, ids: seq<NodeId>) returns (r: Routed)
      requires tokens != []
      modifies this`dial, this`leds, this`busyThreads, this`variableCache, this`sent
      ensures StartsWith(tokens[0], "poll") ==> r == NotModelled
      ensures !StartsWith(tokens[0], "poll") && !ReachesNodes(tokens, ids) ==> r == Answered([], true)
      ensures ReachesNodes(tokens, ids) && Requested(tokens, ids).None? ==> r == Aborted
      ensures r.Aborted? || r.NotModelled? || r == Answered([], true) ==>
                dial == old(dial) && leds == old(leds) && busyThreads == old(busyThreads)
                && variableCache == old(variableCache) && sent == old(sent)
      ensures Requested(tokens, ids) == Some(Unmodelled) ==> r == NotModelled
      ensures Requested(tokens, ids) == Some(Unknown) ==> r == Answered([], true)
      ensures Requested(tokens, ids) == Some(SoundFreq) ==> r == Answered([Reply(501, "")], false)
      ensures Requested(tokens, ids).Some? && Requested(tokens, ids).value.NextDialLimit? ==>
                r == if DialLimit(Requested(tokens, ids).value.limit) == 0 then Aborted else Answered([Reply(204, "")], false)
      ensures Requested(tokens, ids).Some? && Requested(tokens, ids).value.Move? ==>
                r == Answered([Reply(200, IntToDecimal(Requested(tokens, ids).value.busyId))], false)
      ensures Requested(tokens, ids).Some? && Requested(tokens, ids).value.ChangeSpeed? ==>
                r.Aborted? || (r.Answered? && !r.passedOn && |r.replies| <= 1)
      ensures Requested(tokens, ids).Some? && !Requested(tokens, ids).value.SetDial? && !Requested(tokens, ids).value.Unknown? ==>
                Acted(Requested(tokens, ids).value, ids[0], r)
      ensures Requested(tokens, ids).Some? && Requested(tokens, ids).value.SetDial? ==>
                var value := U32(Requested(tokens, ids).value.dial);
                r == Answered(seq(|ids|, _ => Reply(204, "")), true)
                && dial == DialsSet(old(dial), ids, value)
                && sent == old(sent) + seq(|ids|, i requires 0 <= i < |ids| => EventSent(ids[i], LedsCircleVector(value)))
                && leds == old(leds) && busyThreads == old(busyThreads) && variableCache == old(variableCache)
      ensures Requested(tokens, ids).Some? && Requested(tokens, ids).value in {Stop, NextDial, ClearLeds} ==>
                r == Answered([Reply(204, "")], false)
      ensures Requested(tokens, ids).Some? && (Requested(tokens, ids).value.Start?
                || Requested(tokens, ids).value.SetLeds? || Requested(tokens, ids).value.ChangeLeds?) ==>
                r == Answered([Reply(204, "")], false)
    {
      if StartsWith(tokens[0], "poll") {
        return NotModelled;
      }
      if !StartsWith(tokens[0], "nodes") || |tokens| == 1 || ids == [] {
        return Answered([], true);
      }
      if |tokens| < 3 || ParseCommand(tokens).None? {
        return Aborted;
      }
      var command := ParseCommand(tokens).value;
      assert Requested(tokens, ids) == Some(command);
      if !command.SetDial? && !command.Unknown? {
        r := RouteToFirst(command, ids[0]);
        return;
      }
      if command.Unknown? {
        return Answered([], true);
      }
      var replies := SetDials(ids, command.dial);
      r := Answered(replies, true);
    }

    /** `scratch_set_dial n` on every named node in turn, each answered with 204. */
    method SetDials(ids: seq<NodeId>, value: int32) returns (replies: seq<Reply>)
      modifies this`dial, this`sent
      ensures replies == seq(|ids|, _ => Reply(204, ""))
      ensures dial == DialsSet(old(dial), ids, U32(value))
      ensures sent == old(sent) + seq(|ids|, i requires 0 <= i < |ids| => EventSent(ids[i], LedsCircleVector(U32(value))))
    {
      replies := [];
      var i := 0;
      while i < |ids|
        invariant 0 <= i <= |ids|
        invariant replies == seq(i, _ => Reply(204, ""))
        invariant dial == DialsSet(old(dial), ids[..i], U32(value))
        invariant sent == old(sent) + seq(i, j requires 0 <= j < i => EventSent(ids[j], LedsCircleVector(U32(value))))
      {
        SetDialOf(ids[i], value);
        replies := replies + [Reply(204, "")];
        assert ids[..i + 1] == ids[..i] + [ids[i]];
        DialsSetStep(old(dial), ids[..i], ids[i], U32(value));
        i := i + 1;
      }
      assert ids[..i] == ids;
    }

    /** Every part of the state outside `parts` is as it was. */
    twostate predicate OnlyChanged(parts: set<Part>)
      reads this
    {
      (DialPart !in parts ==> dial == old(dial))
      && (LedsPart !in parts ==> leds == old(leds))
      && (BusyPart !in parts ==> busyThreads == old(busyThreads))
      && (CachePart !in parts ==> variableCache == old(variableCache))
      && (SentPart !in parts ==> sent == old(sent))
    }

    /**
     * What one command does on `node` when it finishes the request: the
     * outcome, the parts of the state it changes and their new values.
     */
    twostate predicate Acted(command: Command, node: NodeId, r: Routed)
      requires !command.SetDial? && !command.Unknown?
      reads this
    {
      match command
      case Start(left, right) =>
        r == Answered([Reply(204, "")], false) && OnlyChanged({CachePart, SentPart})
        && sent == old(sent) + [VariableSet(node, MotorArgs(LeftTarget, left, 0)), VariableSet(node, MotorArgs(RightTarget, right, 0))]
        && variableCache == WriteThrough(WriteThrough(old(variableCache), AddressOf(node, LeftTarget), [ToShort(CDiv(left * 32, 10))]),
                                         AddressOf(node, RightTarget), [ToShort(CDiv(right * 32, 10))])
      case ChangeSpeed(left, right) =>
        SpeedChanged(node, left, right, r)
      case Stop =>
        r == Answered([Reply(204, "")], false) && OnlyChanged({CachePart, SentPart})
        && sent == old(sent) + [VariableSet(node, [LeftTarget, "0"]), VariableSet(node, [RightTarget, "0"])]
        && variableCache == WriteThrough(WriteThrough(old(variableCache), AddressOf(node, LeftTarget), [0]), AddressOf(node, RightTarget), [0])
      case NextDialLimit(limit) =>
        if DialLimit(limit) == 0 then r == Aborted && OnlyChanged({})
        else
          r == Answered([Reply(204, "")], false) && OnlyChanged({DialPart, SentPart})
          && dial == old(dial)[node := NextDialValue(old(DialOf(node)), DialLimit(limit)).value]
          && sent == old(sent) + [EventSent(node, LedsCircleVector(dial[node]))]
      case NextDial =>
        r == Answered([Reply(204, "")], false) && OnlyChanged({DialPart, SentPart})
        && dial == old(dial)[node := NextDialValue(old(DialOf(node)), 8).value]
        && sent == old(sent) + [EventSent(node, LedsCircleVector(dial[node]))]
      case ClearLeds =>
        r == Answered([Reply(204, "")], false) && OnlyChanged({LedsPart, SentPart})
        && leds == Painted(old(leds), node, {0, 1, 2}, 200)
        && sent == old(sent) + ClearingEvents(node)
      case SetLeds(color, mask) =>
        var c := U32(CRem(color, 198));
        r == Answered([Reply(204, "")], false) && OnlyChanged({LedsPart, SentPart})
        && leds == Painted(old(leds), node, Slots(LedMask(mask)), c)
        && sent == old(sent) + SlotEvents(node, Slots(LedMask(mask)), [c, c, c])
      case ChangeLeds(delta, mask) =>
        var d := U32(CRem(delta, 198));
        r == Answered([Reply(204, "")], false) && OnlyChanged({LedsPart, SentPart})
        && leds == Recoloured(old(leds), node, Slots(LedMask(mask)), d)
        && sent == old(sent) + SlotEvents(node, Slots(LedMask(mask)), ShiftedLevels(old(leds), node, d))
      case Move(busyId, mm) =>
        r == Answered([Reply(200, IntToDecimal(busyId))], false) && OnlyChanged({BusyPart, SentPart})
        && busyThreads == old(busyThreads) + {busyId as int}
        && sent == old(sent) + [EventSent(node, MoveArgs(busyId, mm))]
      case SoundFreq =>
        r == Answered([Reply(501, "")], false) && OnlyChanged({})
      case Unmodelled =>
        r == NotModelled && OnlyChanged({})
    }

    /** One command on the first named node: the branches of `routeRequest` that finish the request. */
    method RouteToFirst(command: Command, node: NodeId) returns (r: Routed)
      requires !command.SetDial? && !command.Unknown?
      modifies this`dial, this`leds, this`busyThreads, this`variableCache, this`sent
      ensures Acted(command, node, r)
      ensures r.Answered? ==> !r.passedOn && |r.replies| <= 1
      ensures r.Aborted? || r.NotModelled? ==>
                dial == old(dial) && leds == old(leds) && busyThreads == old(busyThreads)
                && variableCache == old(variableCache) && sent == old(sent)
    {
      if command.Start? || command.ChangeSpeed? || command.Stop? || command.Move? {
        r := RouteMotors(command, node);
      } else if command.SoundFreq? {
        r := Answered([Reply(501, "")], false);
      } else if command.Unmodelled? {
        r := NotModelled;
      } else {
        r := RouteLights(command, node);
      }
    }

    /** The commands that drive the motors: start, change speed, stop and move. */
    method RouteMotors(command: Command, node: NodeId) returns (r: Routed)
      requires command.Start? || command.ChangeSpeed? || command.Stop? || command.Move?
      modifies this`busyThreads, this`variableCache, this`sent
      ensures Acted(command, node, r)
      ensures r.Answered? ==> !r.passedOn && |r.replies| <= 1
    {
      match command
      case Start(left, right) =>
        StartMotors(node, left, right);
        r := Answered([Reply(204, "")], false);
      case ChangeSpeed(left, right) =>
        r := ChangeSpeed(node, left, right);
      case Stop =>
        StopMotors(node);
        r := Answered([Reply(204, "")], false);
      case Move(busyId, mm) =>
        var reply := MoveOf(node, busyId, mm);
        r := Answered([reply], false);
    }

    /** The commands that light the robot: the LED dial and the colour slots. */
    method RouteLights(command: Command, node: NodeId) returns (r: Routed)
      requires command.NextDialLimit? || command.NextDial? || command.ClearLeds? || command.SetLeds? || command.ChangeLeds?
      modifies this`dial, this`leds, this`sent
      ensures Acted(command, node, r)
      ensures r.Answered? ==> !r.passedOn && |r.replies| <= 1
    {
      match command
      case NextDialLimit(limit) =>
        var ok := NextDialOf(node, DialLimit(limit));
        r := if ok then Answered([Reply(204, "")], false) else Aborted;
      case NextDial =>
        var _ := NextDialOf(node, 8);
        r := Answered([Reply(204, "")], false);
      case ClearLeds =>
        ClearLedsOf(node);
        r := Answered([Reply(204, "")], false);
      case SetLeds(color, mask) =>
        SetLedsOf(node, U32(CRem(color, 198)), LedMask(mask));
        r := Answered([Reply(204, "")], false);
      case ChangeLeds(delta, mask) =>
        ChangeLedsOf(node, U32(CRem(delta, 198)), LedMask(mask));
        r := Answered([Reply(204, "")], false);
    }

    /**
     * `incomingUserMsg`: an event the node's definitions do not list is
     * ignored; `Q_motion_ended` frees the motion id in its first value;
     * `R_state` with a full payload updates the cached state variables.
     */
    method IncomingUserMsg(source: NodeId, eventType: nat, data: seq<int16>, events: seq<string>)
      modifies this`busyThreads, this`variableCache, this`stateAddresses
      ensures eventType < |events| && StartsWith(events[eventType], "Q_motion_ended") && |data| >= 1 ==>
                busyThreads == old(busyThreads) - {data[0] as int}
      ensures !(eventType < |events| && StartsWith(events[eventType], "Q_motion_ended") && |data| >= 1) ==>
                busyThreads == old(busyThreads)
      ensures eventType < |events| && StartsWith(events[eventType], "R_state") && StateGuard(data) ==>
                (variableCache, stateAddresses) == Stored(old(variableCache), StateAddressesFor(old(stateAddresses), source), StateEntries(data))
      ensures !(eventType < |events| && StartsWith(events[eventType], "R_state") && StateGuard(data)) ==>
                variableCache == old(variableCache) && stateAddresses == old(stateAddresses)
    {
      if eventType >= |events| {
        return;
      }
      var name := events[eventType];
      if StartsWith(name, "Q_motion_ended") && |data| >= 1 {
        busyThreads := busyThreads - {data[0] as int};
      }
      if StartsWith(name, "R_state") && StateGuard(data) {
        ReceiveStateVariables(source, data);
      }
    }

    /** The addresses the report uses: those known, or on first use the ones resolved on `node`. */
    function StateAddressesFor(addresses: map<string, Address>, node: NodeId): map<string, Address> {
      if addresses == map[] then ResolvedAddresses(position, node, StateNames) else addresses
    }

    /** `receiveStateVariables`: resolve the addresses on first use, then store the payload's values. */
    method ReceiveStateVariables(node: NodeId, data: seq<int16>)
      requires StateGuard(data)
      modifies this`variableCache, this`stateAddresses
      ensures (variableCache, stateAddresses) == Stored(old(variableCache), StateAddressesFor(old(stateAddresses), node), StateEntries(data))
    {
      if stateAddresses == map[] {
        ResolveStateAddresses(node);
      }
      StoreState(StateEntries(data));
    }

    /** Record the address of every report variable the node resolves. */
    method ResolveStateAddresses(node: NodeId)
      requires stateAddresses == map[]
      modifies this`stateAddresses
      ensures stateAddresses == ResolvedAddresses(position, node, StateNames)
    {
      var i := 0;
      while i < |StateNames|
        invariant 0 <= i <= |StateNames|
        invariant stateAddresses == ResolvedAddresses(position, node, StateNames[..i])
      {
        var name := StateNames[i];
        assert StateNames[..i + 1] == StateNames[..i] + [name];
        ResolvedStep(position, node, StateNames[..i], name);
        var address := AddressOf(node, name);
        if address.Some? {
          stateAddresses := stateAddresses[name := address.value];
        }
        i := i + 1;
      }
      assert StateNames[..i] == StateNames;
    }

    /** Store each report entry at its variable's address, in payload order. */
    method StoreState(entries: seq<(string, seq<int16>)>)
      modifies this`variableCache, this`stateAddresses
      ensures variableCache == Stored(old(variableCache), old(stateAddresses), entries).0
      ensures stateAddresses == Stored(old(variableCache), old(stateAddresses), entries).1
    {
      var i := 0;
      while i < |entries|
        invariant 0 <= i <= |entries|
        invariant variableCache == Stored(old(variableCache), old(stateAddresses), entries[..i]).0
        invariant stateAddresses == Stored(old(variableCache), old(stateAddresses), entries[..i]).1
      {
        assert entries[..i + 1][..i] == entries[..i];
        var name := entries[i].0;
        if name !in stateAddresses {
          stateAddresses := stateAddresses[name := (0, 0)];
        }
        variableCache := variableCache[stateAddresses[name] := entries[i].1];
        i := i + 1;
      }
      assert entries[..i] == entries;
    }
  }
}
