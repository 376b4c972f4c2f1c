// The client's registry of entities and their latest states, entities.go: eight maps that
// every dispatched message may change. The reference it is proved against looks at the
// whole history of messages: an entity is what its last listing said, with the last state
// reported after that listing.
module EntityRegistry {
  import opened Common
  import opened Entities

  // ---------- The reference ----------

  // A button has no state; any other entity has one from the moment it is listed.
  datatype Entry = Entry(description: Description, state: Option<State>)

  function ZeroState(id: Identity): (s: Option<State>)
    ensures s.None? <==> id.family.Button?
    ensures s.Some? ==> IdentityOf(s.value) == id
  {
    match id.family
    case BinarySensor => Some(BinarySensorState(id.key, false, false))
    case Sensor => Some(SensorState(id.key, 0.0, false))
    case TextSensor => Some(TextSensorState(id.key, "", false))
    case Switch => Some(SwitchState(id.key, false))
    case Number => Some(NumberState(id.key, 0.0, false))
    case Button => None
    case Fan => Some(FanState(id.key, ZERO_FAN))
    case Light => Some(LightState(id.key, ZERO_LIGHT))
  }

  // A fan keeps only fan traits, a light only light traits, anything else neither.
  function Trimmed(d: Description): Description {
    d.(fan := if d.identity.family.Fan? then d.fan else NO_FAN_TRAITS,
       light := if d.identity.family.Light? then d.light else NO_LIGHT_TRAITS)
  }

  predicate Lists(m: Message, id: Identity) {
    m.Listed? && m.description.identity == id
  }

  predicate Reports(m: Message, id: Identity) {
    m.Reported? && IdentityOf(m.state) == id
  }

  // The position after the last message of a kind, or 0.
  function LastListing(history: seq<Message>, id: Identity): (r: nat)
    ensures r <= |history|
    ensures r > 0 ==> Lists(history[r - 1], id)
    ensures forall i | r <= i < |history| :: !Lists(history[i], id)
  {
    if history == [] then 0
    else if Lists(history[|history| - 1], id) then |history|
    else LastListing(history[..|history| - 1], id)
  }

  function LastReport(history: seq<Message>, id: Identity): (r: nat)
    ensures r <= |history|
    ensures r > 0 ==> Reports(history[r - 1], id)
    ensures forall i | r <= i < |history| :: !Reports(history[i], id)
  {
    if history == [] then 0
    else if Reports(history[|history| - 1], id) then |history|
    else LastReport(history[..|history| - 1], id)
  }

  function EntryAfter(history: seq<Message>, id: Identity): Option<Entry> {
    var listing := LastListing(history, id);
    var report := LastReport(history, id);
    if listing == 0 then None
    else Some(Entry(Trimmed(history[listing - 1].description),
                    if report > listing then Some(history[report - 1].state) else ZeroState(id)))
  }

  function Next(before: Option<Entry>, m: Message, id: Identity): Option<Entry> {
    if Lists(m, id) then Some(Entry(Trimmed(m.description), ZeroState(id)))
    else if Reports(m, id) && before.Some? then Some(before.value.(state := Some(m.state)))
    else before
  }

  // One more message replaces the entry, changes its state, or leaves it alone.
  lemma EntryAfterOneMore(history: seq<Message>, m: Message, id: Identity)
    ensures EntryAfter(history + [m], id) == Next(EntryAfter(history, id), m, id)
  {
    assert (history + [m])[..|history|] == history;
  }

  // What a client reads of an entity that has been listed and not reported: the listing, with
  // a fan's and a light's own traits only, and a state that is off, zero or empty. A button
  // has none.
  lemma ListedReadsAsZero(history: seq<Message>, d: Description)
    ensures EntryAfter(history + [Listed(d)], d.identity).Some?
    ensures var entry := EntryAfter(history + [Listed(d)], d.identity).value.description;
            && entry.identity == d.identity && entry.objectId == d.objectId && entry.name == d.name
            && entry.fan == (if d.identity.family.Fan? then d.fan else NO_FAN_TRAITS)
            && entry.light == (if d.identity.family.Light? then d.light else NO_LIGHT_TRAITS)
    ensures var key := d.identity.key;
            EntryAfter(history + [Listed(d)], d.identity).value.state ==
               match d.identity.family
               case BinarySensor => Some(BinarySensorState(key, false, false))
               case Sensor => Some(SensorState(key, 0.0, false))
               case TextSensor => Some(TextSensorState(key, "", false))
               case Switch => Some(SwitchState(key, false))
               case Number => Some(NumberState(key, 0.0, false))
               case Button => None
               case Fan => Some(FanState(key, FanValues(false, false, 0, 0, "")))
               case Light =>
                 Some(LightState(key, LightValues(false, 0.0, 0, 0.0, 0.0, 0.0, 0.0, 0.0, 0.0, 0.0, 0.0, "")))
  {
    EntryAfterOneMore(history, Listed(d), d.identity);
  }

  // An entity is there exactly if it has been listed; reports alone do not make one.
  lemma ThereExactlyIfListed(history: seq<Message>, id: Identity)
    ensures EntryAfter(history, id).Some?
       <==> exists i :: 0 <= i < |history| && history[i].Listed? && history[i].description.identity == id
  {
    var last := LastListing(history, id);
    if last > 0 { assert Lists(history[last - 1], id); }
    forall i | 0 <= i < |history| && history[i].Listed? && history[i].description.identity == id
      ensures EntryAfter(history, id).Some?
    {
      assert Lists(history[i], id);
    }
  }

  // ---------- The registry ----------

  datatype Base = Base(key: nat, objectId: string, name: string)
  datatype BinarySensorEntity = BinarySensorEntity(base: Base, on: bool, missing: bool)
  datatype SensorEntity = SensorEntity(base: Base, value: real, missing: bool)
  datatype TextSensorEntity = TextSensorEntity(base: Base, text: string, missing: bool)
  datatype SwitchEntity = SwitchEntity(base: Base, on: bool)
  datatype NumberEntity = NumberEntity(base: Base, value: real, missing: bool)
  datatype ButtonEntity = ButtonEntity(base: Base)
  datatype FanEntity = FanEntity(base: Base, traits: FanTraits, values: FanValues)
  datatype LightEntity = LightEntity(base: Base, traits: LightTraits, values: LightValues)

  function Describe(family: Family, base: Base): Description {
    Description(Identity(family, base.key), base.objectId, base.name, NO_FAN_TRAITS, NO_LIGHT_TRAITS)
  }

  // The order in which a bare key is looked up.
  function Rank(f: Family): nat {
    match f
    case BinarySensor => 0
    case Sensor => 1
    case TextSensor => 2
    case Switch => 3
    case Number => 4
    case Button => 5
    case Fan => 6
    case Light => 7
  }

  class Registry {
    var binarySensors: map<nat, BinarySensorEntity>
    var sensors: map<nat, SensorEntity>
    var textSensors: map<nat, TextSensorEntity>
    var switches: map<nat, SwitchEntity>
    var numbers: map<nat, NumberEntity>
    var buttons: map<nat, ButtonEntity>
    var fans: map<nat, FanEntity>
    var lights: map<nat, LightEntity>
    ghost var history: seq<Message>

    function Lookup(id: Identity): Option<Entry>
      reads this
    {
      var key := id.key;
      match id.family
      case BinarySensor =>
        if key !in binarySensors then None
        else var e := binarySensors[key];
             Some(Entry(Describe(BinarySensor, e.base), Some(BinarySensorState(key, e.on, e.missing))))
      case Sensor =>
        if key !in sensors then None
        else var e := sensors[key];
             Some(Entry(Describe(Sensor, e.base), Some(SensorState(key, e.value, e.missing))))
      case TextSensor =>
        if key !in textSensors then None
        else var e := textSensors[key];
             Some(Entry(Describe(TextSensor, e.base), Some(TextSensorState(key, e.text, e.missing))))
      case Switch =>
        if key !in switches then None
        else var e := switches[key];
             Some(Entry(Describe(Switch, e.base), Some(SwitchState(key, e.on))))
      case Number =>
        if key !in numbers then None
        else var e := numbers[key];
             Some(Entry(Describe(Number, e.base), Some(NumberState(key, e.value, e.missing))))
      case Button =>
        if key !in buttons then None else Some(Entry(Describe(Button, buttons[key].base), None))
      case Fan =>
        if key !in fans then None
        else var e := fans[key];
             Some(Entry(Describe(Fan, e.base).(fan := e.traits), Some(FanState(key, e.values))))
      case Light =>
        if key !in lights then None
        else var e := lights[key];
             Some(Entry(Describe(Light, e.base).(light := e.traits), Some(LightState(key, e.values))))
    }

    ghost predicate Valid()
      reads this
    {
      forall id :: Lookup(id) == EntryAfter(history, id)
    }

    constructor ()
      ensures Valid() && history == []
    {
      binarySensors, sensors, textSensors, switches := map[], map[], map[], map[];
      numbers, buttons, fans, lights := map[], map[], map[], map[];
      history := [];
    }

    method List(d: Description)
      modifies this
      ensures history == old(history)
      ensures forall id :: Lookup(id) ==
                if id == d.identity then Some(Entry(Trimmed(d), ZeroState(id))) else old(Lookup(id))
    {
      var key := d.identity.key;
      var base := Base(key, d.objectId, d.name);
      match d.identity.family
      case BinarySensor => binarySensors := binarySensors[key := BinarySensorEntity(base, false, false)];
      case Sensor => sensors := sensors[key := SensorEntity(base, 0.0, false)];
      case TextSensor => textSensors := textSensors[key := TextSensorEntity(base, "", false)];
      case Switch => switches := switches[key := SwitchEntity(base, false)];
      case Number => numbers := numbers[key := NumberEntity(base, 0.0, false)];
      case Button => buttons := buttons[key := ButtonEntity(base)];
      case Fan => fans := fans[key := FanEntity(base, d.fan, ZERO_FAN)];
      case Light => lights := lights[key := LightEntity(base, d.light, ZERO_LIGHT)];
    }

    method Report(s: State)
      modifies this
      ensures history == old(history)
      ensures forall id :: Lookup(id) == Next(old(Lookup(id)), Reported(s), id)
    {
      match s
      case BinarySensorState(key, on, missing) =>
        if key in binarySensors {
          binarySensors := binarySensors[key := binarySensors[key].(on := on, missing := missing)];
        }
      case SensorState(key, value, missing) =>
        if key in sensors { sensors := sensors[key := sensors[key].(value := value, missing := missing)]; }
      case TextSensorState(key, text, missing) =>
        if key in textSensors {
          textSensors := textSensors[key := textSensors[key].(text := text, missing := missing)];
        }
      case SwitchState(key, on) =>
        if key in switches { switches := switches[key := switches[key].(on := on)]; }
      case NumberState(key, value, missing) =>
        if key in numbers { numbers := numbers[key := numbers[key].(value := value, missing := missing)]; }
      case FanState(key, fan) =>
        if key in fans { fans := fans[key := fans[key].(values := fan)]; }
      case LightState(key, light) =>
        if key in lights { lights := lights[key := lights[key].(values := light)]; }
    }

    // EntityRegistry.handle: whatever the message, the registry stays what the history
    // of messages says.
    method Handle(m: Message)
      requires Valid()
      modifies this
      ensures Valid() && history == old(history) + [m]
    {
      match m {
        case Listed(d) => List(d);
        case Reported(s) => Report(s);
        case _ =>
      }
      history := history + [m];
      Extended(m);
    }

    twostate lemma Extended(m: Message)
      requires old(Valid()) && history == old(history) + [m]
      requires forall id :: Lookup(id) == Next(old(Lookup(id)), m, id)
      ensures Valid()
    {
      forall id
        ensures Lookup(id) == EntryAfter(history, id)
      {
        EntryAfterOneMore(old(history), m, id);
      }
    }

    // The family a bare key belongs to: the first in the lookup order that lists it.
    method Domain(key: nat) returns (family: Option<Family>)
      ensures match family
              case None => forall f :: Lookup(Identity(f, key)).None?
              case Some(found) =>
                && Lookup(Identity(found, key)).Some?
                && forall f :: Lookup(Identity(f, key)).Some? ==> Rank(found) <= Rank(f)
    {
      if key in binarySensors { return Some(BinarySensor); }
      if key in sensors { return Some(Sensor); }
      if key in textSensors { return Some(TextSensor); }
      if key in switches { return Some(Switch); }
      if key in numbers { return Some(Number); }
      if key in buttons { return Some(Button); }
      if key in fans { return Some(Fan); }
      if key in lights { return Some(Light); }
      return None;
    }
  }
}
