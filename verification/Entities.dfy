// The entities of the Native API as the simulator and the client see them: identities,
// states, listings, and the fan and light commands that overwrite parts of a state
// (simulator/simulator.go). Floating-point fields are only ever copied; they are reals.
module Entities {
  import opened Common

  datatype Family = BinarySensor | Sensor | TextSensor | Switch | Number | Button | Fan | Light

  datatype Identity = Identity(family: Family, key: nat)

  datatype FanValues = FanValues(on: bool, oscillating: bool, direction: int, speedLevel: int, presetMode: string)

  datatype LightValues = LightValues(
    on: bool, brightness: real, colourMode: int, colourBrightness: real,
    red: real, green: real, blue: real, white: real,
    colourTemperature: real, coldWhite: real, warmWhite: real, effect: string)

  datatype State =
    | BinarySensorState(key: nat, on: bool, missing: bool)
    | SensorState(key: nat, value: real, missing: bool)
    | TextSensorState(key: nat, text: string, missing: bool)
    | SwitchState(key: nat, on: bool)
    | NumberState(key: nat, value: real, missing: bool)
    | FanState(key: nat, fan: FanValues)
    | LightState(key: nat, light: LightValues)

  function IdentityOf(s: State): (id: Identity)
    ensures id.key == s.key && !id.family.Button?
  {
    match s
    case BinarySensorState(key, _, _) => Identity(BinarySensor, key)
    case SensorState(key, _, _) => Identity(Sensor, key)
    case TextSensorState(key, _, _) => Identity(TextSensor, key)
    case SwitchState(key, _) => Identity(Switch, key)
    case NumberState(key, _, _) => Identity(Number, key)
    case FanState(key, _) => Identity(Fan, key)
    case LightState(key, _) => Identity(Light, key)
  }

  const ZERO_FAN := FanValues(false, false, 0, 0, "")
  const ZERO_LIGHT := LightValues(false, 0.0, 0, 0.0, 0.0, 0.0, 0.0, 0.0, 0.0, 0.0, 0.0, "")

  // What a listing says of an entity; the last two fields only for a fan and a light.
  datatype Description = Description(identity: Identity, objectId: string, name: string, fan: FanTraits,
                                     light: LightTraits)

  datatype FanTraits = FanTraits(oscillation: bool, speed: bool, direction: bool, speedCount: int,
                                 presetModes: seq<string>)

  datatype LightTraits = LightTraits(colourModes: seq<int>, effects: seq<string>)

  const NO_FAN_TRAITS := FanTraits(false, false, false, 0, [])
  const NO_LIGHT_TRAITS := LightTraits([], [])

  // What the client is sent.
  datatype Message =
    | Listed(description: Description)
    | ListedOther(what: nat)                  // a listing of a family without a model here
    | ListingDone
    | Reported(state: State)
    | Other(id: nat)

  // ---------- Commands ----------

  // Each field is present when its "has" flag is set.
  datatype FanCommand = FanCommand(
    key: nat, on: Option<bool>, oscillating: Option<bool>, direction: Option<int>,
    speedLevel: Option<int>, presetMode: Option<string>)

  datatype Rgb = Rgb(red: real, green: real, blue: real)

  datatype LightCommand = LightCommand(
    key: nat, on: Option<bool>, brightness: Option<real>, colourMode: Option<int>, colourBrightness: Option<real>,
    rgb: Option<Rgb>, white: Option<real>, colourTemperature: Option<real>,
    coldWhite: Option<real>, warmWhite: Option<real>, effect: Option<string>)

  function Either<T>(wanted: Option<T>, current: T): T {
    if wanted.Some? then wanted.value else current
  }

  function FanAfter(f: FanValues, c: FanCommand): FanValues {
    FanValues(Either(c.on, f.on), Either(c.oscillating, f.oscillating), Either(c.direction, f.direction),
              Either(c.speedLevel, f.speedLevel), Either(c.presetMode, f.presetMode))
  }

  function LightAfter(l: LightValues, c: LightCommand): LightValues {
    var rgb := Either(c.rgb, Rgb(l.red, l.green, l.blue));
    LightValues(Either(c.on, l.on), Either(c.brightness, l.brightness), Either(c.colourMode, l.colourMode),
                Either(c.colourBrightness, l.colourBrightness), rgb.red, rgb.green, rgb.blue, Either(c.white, l.white),
                Either(c.colourTemperature, l.colourTemperature), Either(c.coldWhite, l.coldWhite),
                Either(c.warmWhite, l.warmWhite), Either(c.effect, l.effect))
  }

  // Every field present in the command replaces its field; every other field stays.
  method ApplyFan(state: FanValues, command: FanCommand) returns (result: FanValues)
    ensures result == FanAfter(state, command)
    ensures result.on == (if command.on.Some? then command.on.value else state.on)
    ensures result.oscillating == (if command.oscillating.Some? then command.oscillating.value else state.oscillating)
    ensures result.direction == (if command.direction.Some? then command.direction.value else state.direction)
    ensures result.speedLevel == (if command.speedLevel.Some? then command.speedLevel.value else state.speedLevel)
    ensures result.presetMode == (if command.presetMode.Some? then command.presetMode.value else state.presetMode)
  {
    result := state;
    if command.on.Some? { result := result.(on := command.on.value); }
    if command.oscillating.Some? { result := result.(oscillating := command.oscillating.value); }
    if command.direction.Some? { result := result.(direction := command.direction.value); }
    if command.speedLevel.Some? { result := result.(speedLevel := command.speedLevel.value); }
    if command.presetMode.Some? { result := result.(presetMode := command.presetMode.value); }
  }

  method ApplyLight(state: LightValues, command: LightCommand) returns (result: LightValues)
    ensures result == LightAfter(state, command)
    ensures result.on == (if command.on.Some? then command.on.value else state.on)
    ensures result.brightness == (if command.brightness.Some? then command.brightness.value else state.brightness)
    ensures result.colourMode == (if command.colourMode.Some? then command.colourMode.value else state.colourMode)
    ensures result.colourBrightness ==
            (if command.colourBrightness.Some? then command.colourBrightness.value else state.colourBrightness)
    ensures if command.rgb.None? then
              result.red == state.red && result.green == state.green && result.blue == state.blue
            else
              && result.red == command.rgb.value.red && result.green == command.rgb.value.green
              && result.blue == command.rgb.value.blue
    ensures result.white == (if command.white.Some? then command.white.value else state.white)
    ensures result.colourTemperature ==
            (if command.colourTemperature.Some? then command.colourTemperature.value else state.colourTemperature)
    ensures result.coldWhite == (if command.coldWhite.Some? then command.coldWhite.value else state.coldWhite)
    ensures result.warmWhite == (if command.warmWhite.Some? then command.warmWhite.value else state.warmWhite)
    ensures result.effect == (if command.effect.Some? then command.effect.value else state.effect)
  {
    var LightValues(on, brightness, colourMode, colourBrightness, red, green, blue, white,
                    colourTemperature, coldWhite, warmWhite, effect) := state;
    if command.on.Some? { on := command.on.value; }
    if command.brightness.Some? { brightness := command.brightness.value; }
    if command.colourMode.Some? { colourMode := command.colourMode.value; }
    if command.colourBrightness.Some? { colourBrightness := command.colourBrightness.value; }
    if command.rgb.Some? { red, green, blue := command.rgb.value.red, command.rgb.value.green, command.rgb.value.blue; }
    if command.white.Some? { white := command.white.value; }
    if command.colourTemperature.Some? { colourTemperature := command.colourTemperature.value; }
    if command.coldWhite.Some? { coldWhite := command.coldWhite.value; }
    if command.warmWhite.Some? { warmWhite := command.warmWhite.value; }
    if command.effect.Some? { effect := command.effect.value; }
    assert on == Either(command.on, state.on) && brightness == Either(command.brightness, state.brightness);
    assert colourMode == Either(command.colourMode, state.colourMode);
    assert colourBrightness == Either(command.colourBrightness, state.colourBrightness);
    assert Rgb(red, green, blue) == Either(command.rgb, Rgb(state.red, state.green, state.blue));
    assert white == Either(command.white, state.white) && effect == Either(command.effect, state.effect);
    result := LightValues(on, brightness, colourMode, colourBrightness, red, green, blue, white,
                          colourTemperature, coldWhite, warmWhite, effect);
  }
}
