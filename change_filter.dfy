/**
 * The change filter behind a light-state update: which frames an update
 * produces given the state last applied, and what the driver remembers
 * afterwards. The driver's method follows this definition step by step.
 */
module ChangeFilter {
  import opened Protocol

  /** `clamp_i`: `v` limited to the closed range [lo, hi]. */
  function ClampI(v: int, lo: int, hi: int): (r: int)
    ensures lo <= hi ==> lo <= r <= hi
    ensures lo <= v <= hi ==> r == v
    ensures lo <= hi && v < lo ==> r == lo
    ensures lo <= hi && v > hi ==> r == hi
  {
    if v < lo then lo else if v > hi then hi else v
  }

  const BRIGHTNESS_MIN := 0
  const BRIGHTNESS_MAX := 100
  const TEMPERATURE_MIN := 32
  const TEMPERATURE_MAX := 56
  /** The "never applied" value of a level, which forces the next write. */
  const UNSET := -1

  /** The state last written to the light (`last_on_`, `last_bri_`, `last_temp_`). */
  datatype Applied = Applied(on: bool, brightness: int, temperature: int)

  /** The initial state, restored on every disconnect. */
  const UNKNOWN := Applied(false, UNSET, UNSET)

  /** The ranges noted on the fields: each level is unset or a value the protocol accepts. */
  predicate InRange(a: Applied) {
    && (a.brightness == UNSET || BRIGHTNESS_MIN <= a.brightness <= BRIGHTNESS_MAX)
    && (a.temperature == UNSET || TEMPERATURE_MIN <= a.temperature <= TEMPERATURE_MAX)
  }

  function BrightnessCode(rounded: int): (r: byte)
    ensures BRIGHTNESS_MIN <= r <= BRIGHTNESS_MAX
  {
    ClampI(rounded, BRIGHTNESS_MIN, BRIGHTNESS_MAX)
  }

  function TemperatureCode(rounded: int): (r: byte)
    ensures TEMPERATURE_MIN <= r <= TEMPERATURE_MAX
  {
    ClampI(rounded, TEMPERATURE_MIN, TEMPERATURE_MAX)
  }

  function PowerValue(on: bool): byte {
    if on then POWER_ON else POWER_OFF
  }

  /** At most one command per dimension, in the order power, brightness, temperature. */
  predicate InProtocolOrder(cmds: seq<Command>) {
    && (forall i :: 0 <= i < |cmds| ==> POWER_PREFIX <= cmds[i].prefix <= TEMPERATURE_PREFIX)
    && (forall i, j :: 0 <= i < j < |cmds| ==> cmds[i].prefix < cmds[j].prefix)
  }

  /** No command in `cmds` sets dimension `prefix`. */
  predicate Silent(cmds: seq<Command>, prefix: byte) {
    forall c :: c in cmds ==> c.prefix != prefix
  }

  datatype Outcome = Outcome(next: Applied, commands: seq<Command>)

  /**
   * One light-state update from applied state `a`, for the desired power `on`
   * and the already-rounded brightness percentage and colour-temperature code.
   */
  function Update(a: Applied, on: bool, brightness: int, temperature: int): Outcome {
    var bri := BrightnessCode(brightness);
    var temp := TemperatureCode(temperature);
    var power := if on != a.on then [Command(POWER_PREFIX, PowerValue(on))] else [];
    if !on then
      Outcome(a.(on := false), power)
    else
      var briCmd := if bri != a.brightness then [Command(BRIGHTNESS_PREFIX, bri)] else [];
      var tempCmd := if temp != a.temperature then [Command(TEMPERATURE_PREFIX, temp)] else [];
      Outcome(Applied(true, bri, temp), power + briCmd + tempCmd)
  }

  /**
   * The frames an update from `a` should write, independently of how they are
   * produced: the power when it changes, and, while on, each clamped level that
   * differs from the one remembered.
   */
  predicate Wanted(a: Applied, on: bool, brightness: int, temperature: int, c: Command) {
    || (c == Command(POWER_PREFIX, PowerValue(on)) && on != a.on)
    || (c == Command(BRIGHTNESS_PREFIX, BrightnessCode(brightness))
        && on && BrightnessCode(brightness) != a.brightness)
    || (c == Command(TEMPERATURE_PREFIX, TemperatureCode(temperature))
        && on && TemperatureCode(temperature) != a.temperature)
  }

  /** An update writes exactly the wanted frames, in protocol order. */
  lemma UpdateWritesChanges(a: Applied, on: bool, brightness: int, temperature: int)
    ensures var cmds := Update(a, on, brightness, temperature).commands;
            && InProtocolOrder(cmds)
            && forall c :: c in cmds <==> Wanted(a, on, brightness, temperature, c)
  {
  }

  /** Sending nothing but the wanted frames, in protocol order, leaves no choice. */
  lemma UpdateUnique(a: Applied, on: bool, brightness: int, temperature: int, cmds: seq<Command>)
    requires InProtocolOrder(cmds)
    requires forall c :: c in cmds <==> Wanted(a, on, brightness, temperature, c)
    ensures cmds == Update(a, on, brightness, temperature).commands
  {
    UpdateWritesChanges(a, on, brightness, temperature);
    Determined(cmds, Update(a, on, brightness, temperature).commands);
  }

  /** While off, no level frame is written. */
  lemma OffWritesNoLevels(a: Applied, brightness: int, temperature: int)
    ensures Silent(Update(a, false, brightness, temperature).commands, BRIGHTNESS_PREFIX)
    ensures Silent(Update(a, false, brightness, temperature).commands, TEMPERATURE_PREFIX)
  {
  }

  /**
   * What is remembered after an update, whatever became of the writes: the
   * power always, the clamped levels only while on.
   */
  lemma UpdateRemembers(a: Applied, on: bool, brightness: int, temperature: int)
    ensures var next := Update(a, on, brightness, temperature).next;
            && next.on == on
            && (on ==> next.brightness == BrightnessCode(brightness)
                       && next.temperature == TemperatureCode(temperature))
            && (!on ==> next.brightness == a.brightness && next.temperature == a.temperature)
            && (InRange(a) ==> InRange(next))
  {
  }

  /** In protocol order, the k-th command's prefix is at least k above the power prefix. */
  lemma {:induction false} PrefixGrows(cmds: seq<Command>, k: nat)
    requires InProtocolOrder(cmds)
    requires k < |cmds|
    ensures cmds[k].prefix >= POWER_PREFIX + k
  {
    if k > 0 {
      PrefixGrows(cmds, k - 1);
    }
  }

  /** Commands in protocol order number at most three. */
  lemma AtMostThree(cmds: seq<Command>)
    requires InProtocolOrder(cmds)
    ensures |cmds| <= 3
  {
    if |cmds| > 0 {
      PrefixGrows(cmds, |cmds| - 1);
    }
  }

  /** An update never produces more than three frames. */
  lemma UpdateAtMostThree(a: Applied, on: bool, brightness: int, temperature: int)
    ensures |Update(a, on, brightness, temperature).commands| <= 3
  {
    UpdateWritesChanges(a, on, brightness, temperature);
    AtMostThree(Update(a, on, brightness, temperature).commands);
  }

  /** Commands in protocol order are determined by which commands they contain. */
  lemma {:induction false} Determined(c1: seq<Command>, c2: seq<Command>)
    requires InProtocolOrder(c1) && InProtocolOrder(c2)
    requires forall c :: c in c1 <==> c in c2
    ensures c1 == c2
  {
    if c1 != [] {
      assert c1[0] in c2;
    }
    if c2 != [] {
      assert c2[0] in c1;
    }
    if c1 != [] && c2 != [] {
      assert c1[0] == c2[0];
      forall c ensures c in c1[1..] <==> c in c2[1..] {
        if c in c1[1..] {
          assert c in c2 && c.prefix > c2[0].prefix;
        }
        if c in c2[1..] {
          assert c in c1 && c.prefix > c1[0].prefix;
        }
      }
      Determined(c1[1..], c2[1..]);
      assert c1 == [c1[0]] + c1[1..];
      assert c2 == [c2[0]] + c2[1..];
    }
  }

  /** The level values written are always in the protocol's ranges. */
  lemma LevelsInRange(a: Applied, on: bool, brightness: int, temperature: int, c: Command)
    requires c in Update(a, on, brightness, temperature).commands
    ensures c.prefix == POWER_PREFIX ==> c.value == POWER_ON || c.value == POWER_OFF
    ensures c.prefix == BRIGHTNESS_PREFIX ==> BRIGHTNESS_MIN <= c.value <= BRIGHTNESS_MAX
    ensures c.prefix == TEMPERATURE_PREFIX ==> TEMPERATURE_MIN <= c.value <= TEMPERATURE_MAX
  {
  }

  /** Applying the same desired state twice: the second update writes nothing and remembers the same. */
  lemma Idempotent(a: Applied, on: bool, brightness: int, temperature: int)
    ensures var o := Update(a, on, brightness, temperature);
            Update(o.next, on, brightness, temperature) == Outcome(o.next, [])
  {
  }

  /** While the light stays off, an update writes nothing. */
  lemma OffStaysSilent(a: Applied, brightness: int, temperature: int)
    requires !a.on
    ensures Update(a, false, brightness, temperature).commands == []
  {
  }

  /** From the initial state (fresh or just disconnected), turning on writes all three frames. */
  lemma FirstOnWritesAll(brightness: int, temperature: int)
    ensures Update(UNKNOWN, true, brightness, temperature).commands ==
      [ Command(POWER_PREFIX, POWER_ON),
        Command(BRIGHTNESS_PREFIX, BrightnessCode(brightness)),
        Command(TEMPERATURE_PREFIX, TemperatureCode(temperature)) ]
  {
  }

  /**
   * Levels changed while off are written at the next power-on: the values
   * remembered while off are those last applied while on.
   */
  lemma PowerOnResendsChangedLevels(a: Applied, b0: int, t0: int, b1: int, t1: int)
    requires a.on
    ensures var off := Update(a, false, b0, t0).next;
            var o := Update(off, true, b1, t1);
            && Command(POWER_PREFIX, POWER_ON) in o.commands
            && (Command(BRIGHTNESS_PREFIX, BrightnessCode(b1)) in o.commands
                <==> BrightnessCode(b1) != a.brightness)
            && (Command(TEMPERATURE_PREFIX, TemperatureCode(t1)) in o.commands
                <==> TemperatureCode(t1) != a.temperature)
  {
  }
}
