/** The HeaterCooler service of one air conditioner: the characteristic
    getters that read a status snapshot, the setters that build device
    commands, and the mapping from a live device event to a characteristic
    update. All are total functions over snapshots, values and commands. */
module HeaterCooler {
  import opened Wrappers
  import opened Json
  import StatusCache

  /** CurrentHeaterCoolerState values. */
  const Inactive: int := 0
  const Idle: int := 1
  const Heating: int := 2
  const Cooling: int := 3

  /** TargetHeaterCoolerState.COOL, the only target state offered; its
      getter always returns it. */
  const TargetCool: int := 2

  const CustomNamespace: string := "custom"
  const OptionalModeSegment: string := "airConditionerOptionalMode"
  const AutoCleaningSegment: string := "autoCleaningMode"
  const OptionalModeCapability: string := CustomNamespace + "." + OptionalModeSegment
  const AutoCleaningCapability: string := CustomNamespace + "." + AutoCleaningSegment

  datatype Characteristic =
    | Active
    | CurrentHeaterCoolerState
    | TargetHeaterCoolerState
    | CurrentTemperature
    | CoolingThresholdTemperature
    | SwingMode
    | LockPhysicalControls

  predicate DotFree(s: string) {
    forall i :: 0 <= i < |s| ==> s[i] != '.'
  }

  /** `s.split('.').pop()`: the longest suffix of `s` without a dot. */
  function LastSegment(s: string): (r: string)
    ensures |r| <= |s| && r == s[|s| - |r|..]
    ensures DotFree(r)
    ensures |r| < |s| ==> s[|s| - |r| - 1] == '.'
    decreases |s|
  {
    if |s| == 0 || s[|s| - 1] == '.' then ""
    else LastSegment(s[..|s| - 1]) + [s[|s| - 1]]
  }

  /** A dot-free name is its own last segment... */
  lemma DotFreeIsOwnSegment(s: string)
    requires DotFree(s)
    ensures LastSegment(s) == s
  {
  }

  /** ...and a dotted one never is. */
  lemma DottedIsNotOwnSegment(s: string)
    requires !DotFree(s)
    ensures LastSegment(s) != s
  {
  }

  /** The last segment of `prefix.segment` is `segment`. */
  lemma {:induction false} SegmentAfterDot(prefix: string, segment: string)
    requires DotFree(segment)
    ensures LastSegment(prefix + "." + segment) == segment
    decreases |segment|
  {
    var s := prefix + "." + segment;
    if |segment| > 0 {
      var init := segment[..|segment| - 1];
      assert s[..|s| - 1] == prefix + "." + init;
      SegmentAfterDot(prefix, init);
      assert segment == init + [segment[|segment| - 1]];
    }
  }

  /** The getters' lookup `s[lastSegment(cap)]?.[attr]?.value ?? default`. */
  function ReadStatus(snap: Snapshot, capability: string, attribute: string, default: Value): (v: Value)
    ensures var rec := StatusCache.RecordAt(snap, LastSegment(capability), attribute);
            v == if "value" in rec && rec["value"] != Null then rec["value"] else default
  {
    var key := LastSegment(capability);
    if key in snap && attribute in snap[key] && "value" in snap[key][attribute] && snap[key][attribute]["value"] != Null then
      snap[key][attribute]["value"]
    else default
  }

  /** For a dot-free capability, a patched value is what the getter reads. */
  lemma PatchIsReadBack(snap: Snapshot, capability: string, attribute: string, v: Value, default: Value)
    requires DotFree(capability) && v != Null
    ensures ReadStatus(StatusCache.SetValue(snap, capability, attribute, v), capability, attribute, default) == v
  {
    DotFreeIsOwnSegment(capability);
  }

  /** The same, stated for a name already known to be its own last segment. */
  lemma PatchIsReadBackOwn(snap: Snapshot, capability: string, attribute: string, v: Value, default: Value)
    requires LastSegment(capability) == capability && v != Null
    ensures ReadStatus(StatusCache.SetValue(snap, capability, attribute, v), capability, attribute, default) == v
  {
  }

  /** Under a name that is its own last segment, a written value reads
      back as itself, and a written null as the lookup's default. */
  lemma PatchReadsAsValue(snap: Snapshot, capability: string, attribute: string, v: Value, default: Value)
    requires LastSegment(capability) == capability
    ensures ReadStatus(StatusCache.SetValue(snap, capability, attribute, v), capability, attribute, default)
         == (if v == Null then default else v)
  {
  }

  /* The standard capabilities' names contain no dot. */

  lemma SwitchIsOwnSegment()
    ensures LastSegment("switch") == "switch"
  {
    assert DotFree("switch");
    DotFreeIsOwnSegment("switch");
  }

  lemma ModeIsOwnSegment()
    ensures LastSegment("airConditionerMode") == "airConditionerMode"
  {
    assert DotFree("airConditionerMode");
    DotFreeIsOwnSegment("airConditionerMode");
  }

  lemma TemperatureIsOwnSegment()
    ensures LastSegment("temperatureMeasurement") == "temperatureMeasurement"
  {
    assert DotFree("temperatureMeasurement");
    DotFreeIsOwnSegment("temperatureMeasurement");
  }

  lemma SetpointIsOwnSegment()
    ensures LastSegment("thermostatCoolingSetpoint") == "thermostatCoolingSetpoint"
  {
    assert DotFree("thermostatCoolingSetpoint");
    DotFreeIsOwnSegment("thermostatCoolingSetpoint");
  }

  /** For a dotted capability (the custom ones), the cache patch writes under
      the full name while the getter reads under the last segment, so the
      getter never sees the patch. */
  lemma PatchInvisibleToDottedRead(snap: Snapshot, capability: string, attribute: string, v: Value, default: Value)
    requires !DotFree(capability)
    ensures ReadStatus(StatusCache.SetValue(snap, capability, attribute, v), capability, attribute, default)
         == ReadStatus(snap, capability, attribute, default)
  {
    DottedIsNotOwnSegment(capability);
  }

  lemma CustomCapabilitySegments()
    ensures LastSegment(OptionalModeCapability) == OptionalModeSegment
    ensures LastSegment(AutoCleaningCapability) == AutoCleaningSegment
    ensures !DotFree(OptionalModeCapability) && !DotFree(AutoCleaningCapability)
  {
    assert DotFree(OptionalModeSegment) && DotFree(AutoCleaningSegment);
    SegmentAfterDot(CustomNamespace, OptionalModeSegment);
    SegmentAfterDot(CustomNamespace, AutoCleaningSegment);
    assert OptionalModeCapability[|CustomNamespace|] == '.';
    assert AutoCleaningCapability[|CustomNamespace|] == '.';
  }

  // ---------------------------------------------------------------------
  // Getters

  /** Current state for an operating air conditioner in mode `mode`. */
  function ModeState(mode: Value): (st: int)
    ensures st == Cooling <==> mode == Str("cool") || mode == Str("dry")
    ensures st == Heating <==> mode == Str("heat")
    ensures st == Idle <==> mode != Str("cool") && mode != Str("dry") && mode != Str("heat")
  {
    if mode == Str("cool") || mode == Str("dry") then Cooling
    else if mode == Str("heat") then Heating
    else Idle
  }

  function ActiveGetter(snap: Snapshot): (v: int)
    ensures v == 1 <==> ReadStatus(snap, "switch", "switch", Str("off")) == Str("on")
    ensures v == 0 || v == 1
  {
    Flag(ReadStatus(snap, "switch", "switch", Str("off")) == Str("on"))
  }

  /** A current-state reading and how many status reads it made. */
  datatype StateReading = StateReading(state: int, statusReads: nat)

  /** The current-state getter reads the power first (from `power`) and,
      unless it is 'off', the mode (from `mode`, a second status read). */
  function CurrentStateGetter(power: Snapshot, mode: Snapshot): (r: StateReading)
    ensures r.state == Inactive <==> ReadStatus(power, "switch", "switch", Str("off")) == Str("off")
    ensures r.statusReads == (if r.state == Inactive then 1 else 2)
    ensures r.state != Inactive ==>
              r.state == ModeState(ReadStatus(mode, "airConditionerMode", "airConditionerMode", Str("off")))
  {
    if ReadStatus(power, "switch", "switch", Str("off")) == Str("off") then StateReading(Inactive, 1)
    else StateReading(ModeState(ReadStatus(mode, "airConditionerMode", "airConditionerMode", Str("off"))), 2)
  }

  /** The stored temperature, or 20 when the status has none. */
  function TemperatureGetter(snap: Snapshot): (v: Value)
    ensures var rec := StatusCache.RecordAt(snap, "temperatureMeasurement", "temperature");
            v == if "value" in rec && rec["value"] != Null then rec["value"] else Num(20)
  {
    TemperatureIsOwnSegment();
    ReadStatus(snap, "temperatureMeasurement", "temperature", Num(20))
  }

  /** The stored cooling setpoint, or 24 when the status has none. */
  function CoolingSetpointGetter(snap: Snapshot): (v: Value)
    ensures var rec := StatusCache.RecordAt(snap, "thermostatCoolingSetpoint", "coolingSetpoint");
            v == if "value" in rec && rec["value"] != Null then rec["value"] else Num(24)
  {
    SetpointIsOwnSegment();
    ReadStatus(snap, "thermostatCoolingSetpoint", "coolingSetpoint", Num(24))
  }

  function SwingModeGetter(snap: Snapshot): (v: int)
    ensures v == 1 <==> ReadStatus(snap, OptionalModeCapability, "acOptionalMode", Str("off")) == Str("windFree")
    ensures v == 0 || v == 1
  {
    Flag(ReadStatus(snap, OptionalModeCapability, "acOptionalMode", Str("off")) == Str("windFree"))
  }

  function LockGetter(snap: Snapshot): (v: int)
    ensures v == 1 <==> ReadStatus(snap, AutoCleaningCapability, "autoCleaningMode", Str("off")) == Str("on")
    ensures v == 0 || v == 1
  {
    Flag(ReadStatus(snap, AutoCleaningCapability, "autoCleaningMode", Str("off")) == Str("on"))
  }

  /** A snapshot with no records makes every getter fall back to its default. */
  lemma EmptySnapshotDefaults()
    ensures ActiveGetter(map[]) == 0
    ensures CurrentStateGetter(map[], map[]) == StateReading(Inactive, 1)
    ensures TemperatureGetter(map[]) == Num(20)
    ensures CoolingSetpointGetter(map[]) == Num(24)
    ensures SwingModeGetter(map[]) == 0 && LockGetter(map[]) == 0
  {
    EmptyReadIsDefault("switch", "switch", Str("off"));
    EmptyReadIsDefault("temperatureMeasurement", "temperature", Num(20));
    EmptyReadIsDefault("thermostatCoolingSetpoint", "coolingSetpoint", Num(24));
    EmptyReadIsDefault(OptionalModeCapability, "acOptionalMode", Str("off"));
    EmptyReadIsDefault(AutoCleaningCapability, "autoCleaningMode", Str("off"));
  }

  lemma EmptyReadIsDefault(capability: string, attribute: string, default: Value)
    ensures ReadStatus(map[], capability, attribute, default) == default
  {
  }

  // ---------------------------------------------------------------------
  // Setters

  /** Active: 1 switches the unit on and anything else switches it off; the
      switch value the command asks for reads back as the requested state. */
  function ActiveSetter(v: Value): (c: Command)
    ensures c.component == "main" && c.capability == "switch" && c.arguments.None?
    ensures v != Num(1) ==> c.command == "off"
    ensures forall snap :: ActiveGetter(StatusCache.SetValue(snap, c.capability, "switch", Str(c.command)))
                        == Flag(v == Num(1))
  {
    var c := Command("main", "switch", if v == Num(1) then "on" else "off", None);
    assert forall snap :: ActiveGetter(StatusCache.SetValue(snap, c.capability, "switch", Str(c.command)))
                       == Flag(v == Num(1)) by {
      forall snap ensures ActiveGetter(StatusCache.SetValue(snap, "switch", "switch", Str(c.command))) == Flag(v == Num(1)) {
        SwitchIsOwnSegment();
        PatchIsReadBackOwn(snap, "switch", "switch", Str(c.command), Str("off"));
      }
    }
    c
  }

  /** Only COOL sends a command; the mode it asks for reads back as COOLING
      while the unit is on. */
  function TargetStateSetter(v: Value): (c: Option<Command>)
    ensures c.Some? <==> v == Num(TargetCool)
    ensures c.Some? ==>
              && c.value.component == "main" && c.value.capability == "airConditionerMode"
              && c.value.command == "setAirConditionerMode"
              && c.value.arguments.Some? && |c.value.arguments.value| == 1
              && forall power, mode :: ReadStatus(power, "switch", "switch", Str("off")) != Str("off") ==>
                   CurrentStateGetter(power, StatusCache.SetValue(mode, c.value.capability, "airConditionerMode",
                                                                  c.value.arguments.value[0])).state == Cooling
  {
    if v == Num(TargetCool) then
      var c := Command("main", "airConditionerMode", "setAirConditionerMode", Some([Str("dry")]));
      assert forall power, mode :: ReadStatus(power, "switch", "switch", Str("off")) != Str("off") ==>
               CurrentStateGetter(power, StatusCache.SetValue(mode, "airConditionerMode", "airConditionerMode", Str("dry"))).state
               == Cooling by {
        forall power, mode | ReadStatus(power, "switch", "switch", Str("off")) != Str("off")
          ensures CurrentStateGetter(power, StatusCache.SetValue(mode, "airConditionerMode", "airConditionerMode", Str("dry"))).state
               == Cooling
        {
          ModeReadBack(mode, power, Str("dry"));
        }
      }
      Some(c)
    else None
  }

  /** The requested setpoint is sent as the command's single argument and
      reads back as the setpoint. */
  function CoolingSetpointSetter(v: Value): (c: Command)
    ensures c.component == "main" && c.capability == "thermostatCoolingSetpoint" && c.command == "setCoolingSetpoint"
    ensures c.arguments.Some? && |c.arguments.value| == 1
    ensures forall snap, d ::
              ReadStatus(StatusCache.SetValue(snap, c.capability, "coolingSetpoint", c.arguments.value[0]), c.capability, "coolingSetpoint", d)
              == (if v == Null then d else v)
    ensures v != Null ==>
              forall snap :: CoolingSetpointGetter(StatusCache.SetValue(snap, c.capability, "coolingSetpoint", c.arguments.value[0])) == v
  {
    var c := Command("main", "thermostatCoolingSetpoint", "setCoolingSetpoint", Some([v]));
    assert forall snap, d ::
             ReadStatus(StatusCache.SetValue(snap, "thermostatCoolingSetpoint", "coolingSetpoint", v), "thermostatCoolingSetpoint", "coolingSetpoint", d)
             == (if v == Null then d else v) by {
      forall snap, d
        ensures ReadStatus(StatusCache.SetValue(snap, "thermostatCoolingSetpoint", "coolingSetpoint", v), "thermostatCoolingSetpoint", "coolingSetpoint", d)
             == (if v == Null then d else v)
      {
        SetpointIsOwnSegment();
        PatchReadsAsValue(snap, "thermostatCoolingSetpoint", "coolingSetpoint", v, d);
      }
    }
    c
  }

  /** SwingMode: the command names the full custom capability; its argument
      reads back as the requested state when the status keys the mode by the
      capability's last segment. */
  function SwingModeSetter(v: Value): (c: Command)
    ensures c.component == "main" && c.capability == OptionalModeCapability && c.command == "setAcOptionalMode"
    ensures c.arguments.Some? && |c.arguments.value| == 1
    ensures v != Num(1) ==> c.arguments == Some([Str("off")])
    ensures forall snap :: SwingModeGetter(StatusCache.SetValue(snap, OptionalModeSegment, "acOptionalMode", c.arguments.value[0]))
                        == Flag(v == Num(1))
  {
    var arg := Str(if v == Num(1) then "windFree" else "off");
    assert forall snap :: SwingModeGetter(StatusCache.SetValue(snap, OptionalModeSegment, "acOptionalMode", arg))
                       == Flag(v == Num(1)) by {
      forall snap ensures SwingModeGetter(StatusCache.SetValue(snap, OptionalModeSegment, "acOptionalMode", arg)) == Flag(v == Num(1)) {
        CustomCapabilitySegments();
        PatchIsReadBack(snap, OptionalModeSegment, "acOptionalMode", arg, Str("off"));
      }
    }
    Command("main", OptionalModeCapability, "setAcOptionalMode", Some([arg]))
  }

  /** LockPhysicalControls drives auto-cleaning, with the same read-back
      under the capability's last segment. */
  function LockSetter(v: Value): (c: Command)
    ensures c.component == "main" && c.capability == AutoCleaningCapability && c.command == "setAutoCleaningMode"
    ensures c.arguments.Some? && |c.arguments.value| == 1
    ensures v != Num(1) ==> c.arguments == Some([Str("off")])
    ensures forall snap :: LockGetter(StatusCache.SetValue(snap, AutoCleaningSegment, "autoCleaningMode", c.arguments.value[0]))
                        == Flag(v == Num(1))
  {
    var arg := Str(if v == Num(1) then "on" else "off");
    assert forall snap :: LockGetter(StatusCache.SetValue(snap, AutoCleaningSegment, "autoCleaningMode", arg))
                       == Flag(v == Num(1)) by {
      forall snap ensures LockGetter(StatusCache.SetValue(snap, AutoCleaningSegment, "autoCleaningMode", arg)) == Flag(v == Num(1)) {
        CustomCapabilitySegments();
        PatchIsReadBack(snap, AutoCleaningSegment, "autoCleaningMode", arg, Str("off"));
      }
    }
    Command("main", AutoCleaningCapability, "setAutoCleaningMode", Some([arg]))
  }

  /** Setting Active to 0 or 1 and then reading back a status in which the
      switch took the commanded value gives the same characteristic value. */
  lemma ActiveSetThenGet(snap: Snapshot, v: int)
    requires v == 0 || v == 1
    ensures ActiveGetter(StatusCache.SetValue(snap, "switch", "switch", Str(ActiveSetter(Num(v)).command))) == v
  {
    SwitchIsOwnSegment();
    PatchIsReadBackOwn(snap, "switch", "switch", Str(ActiveSetter(Num(v)).command), Str("off"));
  }

  /** A requested cooling setpoint is what the setpoint getter reads back
      from a status holding the command's argument. */
  lemma SetpointSetThenGet(snap: Snapshot, v: Value, default: Value)
    requires v != Null
    ensures CoolingSetpointGetter(StatusCache.SetValue(snap, "thermostatCoolingSetpoint", "coolingSetpoint",
                                                       CoolingSetpointSetter(v).arguments.value[0])) == v
    ensures ReadStatus(StatusCache.SetValue(snap, "thermostatCoolingSetpoint", "coolingSetpoint",
                                            CoolingSetpointSetter(v).arguments.value[0]),
                       "thermostatCoolingSetpoint", "coolingSetpoint", default) == v
  {
    SetpointIsOwnSegment();
    PatchReadsAsValue(snap, "thermostatCoolingSetpoint", "coolingSetpoint", v, Num(24));
    PatchReadsAsValue(snap, "thermostatCoolingSetpoint", "coolingSetpoint", v, default);
  }

  /** The same round trip for SwingMode and LockPhysicalControls holds only
      when the status reports the mode under the capability's last segment. */
  lemma CustomSetThenGet(snap: Snapshot, v: int)
    requires v == 0 || v == 1
    ensures SwingModeGetter(StatusCache.SetValue(snap, OptionalModeSegment, "acOptionalMode",
                                                 SwingModeSetter(Num(v)).arguments.value[0])) == v
    ensures LockGetter(StatusCache.SetValue(snap, AutoCleaningSegment, "autoCleaningMode",
                                            LockSetter(Num(v)).arguments.value[0])) == v
  {
    CustomCapabilitySegments();
    PatchIsReadBack(snap, OptionalModeSegment, "acOptionalMode", SwingModeSetter(Num(v)).arguments.value[0], Str("off"));
    PatchIsReadBack(snap, AutoCleaningSegment, "autoCleaningMode", LockSetter(Num(v)).arguments.value[0], Str("off"));
  }

  /** Requesting COOL asks for 'dry', which the state getter reports as
      COOLING once the unit is on and reports that mode. */
  lemma CoolRequestReadsAsCooling(power: Snapshot, mode: Snapshot)
    requires ReadStatus(power, "switch", "switch", Str("off")) != Str("off")
    ensures TargetStateSetter(Num(TargetCool)).value.arguments == Some([Str("dry")])
    ensures CurrentStateGetter(power, StatusCache.SetValue(mode, "airConditionerMode", "airConditionerMode", Str("dry"))).state == Cooling
  {
    ModeReadBack(mode, power, Str("dry"));
  }

  // ---------------------------------------------------------------------
  // Live events

  datatype Update = Update(characteristic: Characteristic, value: Value)

  /** Events are dispatched on the joined string `capability.attribute`. */
  function EventKey(capability: string, attribute: string): string {
    capability + "." + attribute
  }

  const SwitchKey: string := "switch.switch"
  const ModeKey: string := "airConditionerMode.airConditionerMode"
  const TemperatureKey: string := "temperatureMeasurement.temperature"
  const SetpointKey: string := "thermostatCoolingSetpoint.coolingSetpoint"
  const OptionalModeKey: string := OptionalModeCapability + ".acOptionalMode"
  const AutoCleaningKey: string := AutoCleaningCapability + ".autoCleaningMode"

  /** The characteristic update for one device event; `activeIsOne` is
      whether the service's Active characteristic currently holds 1. */
  function EventUpdate(capability: string, attribute: string, value: Value, activeIsOne: bool): (u: Option<Update>)
    ensures var k := EventKey(capability, attribute);
            u.None? <==> (k !in {SwitchKey, ModeKey, TemperatureKey, SetpointKey, OptionalModeKey, AutoCleaningKey}
                          || (k == ModeKey && !activeIsOne))
    ensures EventKey(capability, attribute) == SwitchKey ==> u == Some(Update(Active, Num(Flag(value == Str("on")))))
    ensures EventKey(capability, attribute) == ModeKey && activeIsOne ==>
              u == Some(Update(CurrentHeaterCoolerState, Num(ModeState(value))))
    ensures EventKey(capability, attribute) == TemperatureKey ==> u == Some(Update(CurrentTemperature, value))
    ensures EventKey(capability, attribute) == SetpointKey ==> u == Some(Update(CoolingThresholdTemperature, value))
    ensures EventKey(capability, attribute) == OptionalModeKey ==> u == Some(Update(SwingMode, Num(Flag(value == Str("windFree")))))
    ensures EventKey(capability, attribute) == AutoCleaningKey ==> u == Some(Update(LockPhysicalControls, Num(Flag(value == Str("on")))))
  {
    var k := EventKey(capability, attribute);
    if k == SwitchKey then Some(Update(Active, Num(Flag(value == Str("on")))))
    else if k == ModeKey then
      (if activeIsOne then Some(Update(CurrentHeaterCoolerState, Num(ModeState(value)))) else None)
    else if k == TemperatureKey then Some(Update(CurrentTemperature, value))
    else if k == SetpointKey then Some(Update(CoolingThresholdTemperature, value))
    else if k == OptionalModeKey then Some(Update(SwingMode, Num(Flag(value == Str("windFree")))))
    else if k == AutoCleaningKey then Some(Update(LockPhysicalControls, Num(Flag(value == Str("on")))))
    else None
  }

  /* A live event and a status read agree: the value an event pushes to a
     characteristic is what that characteristic's getter returns from a
     status holding the event's value. */

  lemma SwitchEventAgreesWithGetter(snap: Snapshot, v: Value, activeIsOne: bool)
    requires v != Null
    ensures EventUpdate("switch", "switch", v, activeIsOne)
         == Some(Update(Active, Num(ActiveGetter(StatusCache.SetValue(snap, "switch", "switch", v)))))
  {
    assert EventUpdate("switch", "switch", v, activeIsOne) == Some(Update(Active, Num(Flag(v == Str("on"))))) by {
      assert EventKey("switch", "switch") == SwitchKey;
    }
    assert ActiveGetter(StatusCache.SetValue(snap, "switch", "switch", v)) == Flag(v == Str("on")) by {
      SwitchIsOwnSegment();
      PatchIsReadBackOwn(snap, "switch", "switch", v, Str("off"));
    }
  }

  lemma ModeEventUpdate(v: Value)
    ensures EventUpdate("airConditionerMode", "airConditionerMode", v, true)
         == Some(Update(CurrentHeaterCoolerState, Num(ModeState(v))))
  {
    assert EventKey("airConditionerMode", "airConditionerMode") == ModeKey;
  }

  lemma ModeReadBack(snap: Snapshot, power: Snapshot, v: Value)
    requires v != Null
    requires ReadStatus(power, "switch", "switch", Str("off")) != Str("off")
    ensures CurrentStateGetter(power, StatusCache.SetValue(snap, "airConditionerMode", "airConditionerMode", v)).state
         == ModeState(v)
  {
    ModeIsOwnSegment();
    PatchIsReadBackOwn(snap, "airConditionerMode", "airConditionerMode", v, Str("off"));
  }

  /** While the unit is on, a mode event sets the state the getter would read. */
  lemma ModeEventAgreesWithGetter(snap: Snapshot, power: Snapshot, v: Value)
    requires v != Null
    requires ReadStatus(power, "switch", "switch", Str("off")) != Str("off")
    ensures EventUpdate("airConditionerMode", "airConditionerMode", v, true)
         == Some(Update(CurrentHeaterCoolerState,
                        Num(CurrentStateGetter(power, StatusCache.SetValue(snap, "airConditionerMode", "airConditionerMode", v)).state)))
  {
    ModeEventUpdate(v);
    ModeReadBack(snap, power, v);
  }

  lemma TemperatureEventAgreesWithGetter(snap: Snapshot, v: Value)
    requires v != Null
    ensures EventUpdate("temperatureMeasurement", "temperature", v, false)
         == Some(Update(CurrentTemperature, TemperatureGetter(StatusCache.SetValue(snap, "temperatureMeasurement", "temperature", v))))
  {
    assert EventUpdate("temperatureMeasurement", "temperature", v, false) == Some(Update(CurrentTemperature, v)) by {
      assert EventKey("temperatureMeasurement", "temperature") == TemperatureKey;
    }
    assert TemperatureGetter(StatusCache.SetValue(snap, "temperatureMeasurement", "temperature", v)) == v by {
      TemperatureIsOwnSegment();
      PatchIsReadBackOwn(snap, "temperatureMeasurement", "temperature", v, Num(20));
    }
  }

  lemma SetpointEventAgreesWithGetter(snap: Snapshot, v: Value)
    requires v != Null
    ensures EventUpdate("thermostatCoolingSetpoint", "coolingSetpoint", v, false)
         == Some(Update(CoolingThresholdTemperature, CoolingSetpointGetter(StatusCache.SetValue(snap, "thermostatCoolingSetpoint", "coolingSetpoint", v))))
  {
    assert EventUpdate("thermostatCoolingSetpoint", "coolingSetpoint", v, false) == Some(Update(CoolingThresholdTemperature, v)) by {
      assert EventKey("thermostatCoolingSetpoint", "coolingSetpoint") == SetpointKey;
    }
    assert CoolingSetpointGetter(StatusCache.SetValue(snap, "thermostatCoolingSetpoint", "coolingSetpoint", v)) == v by {
      SetpointIsOwnSegment();
      PatchIsReadBackOwn(snap, "thermostatCoolingSetpoint", "coolingSetpoint", v, Num(24));
    }
  }

  /* For the custom capabilities the agreement holds when the status holds
     the value under the last segment of the capability name. */

  lemma SwingEventAgreesWithGetter(snap: Snapshot, v: Value)
    requires v != Null
    ensures EventUpdate(OptionalModeCapability, "acOptionalMode", v, false)
         == Some(Update(SwingMode, Num(SwingModeGetter(StatusCache.SetValue(snap, OptionalModeSegment, "acOptionalMode", v)))))
  {
    assert EventUpdate(OptionalModeCapability, "acOptionalMode", v, false)
        == Some(Update(SwingMode, Num(Flag(v == Str("windFree"))))) by {
      assert EventKey(OptionalModeCapability, "acOptionalMode") == OptionalModeKey;
    }
    assert SwingModeGetter(StatusCache.SetValue(snap, OptionalModeSegment, "acOptionalMode", v)) == Flag(v == Str("windFree")) by {
      CustomCapabilitySegments();
      PatchIsReadBack(snap, OptionalModeSegment, "acOptionalMode", v, Str("off"));
    }
  }

  lemma LockEventAgreesWithGetter(snap: Snapshot, v: Value)
    requires v != Null
    ensures EventUpdate(AutoCleaningCapability, "autoCleaningMode", v, false)
         == Some(Update(LockPhysicalControls, Num(LockGetter(StatusCache.SetValue(snap, AutoCleaningSegment, "autoCleaningMode", v)))))
  {
    assert EventUpdate(AutoCleaningCapability, "autoCleaningMode", v, false)
        == Some(Update(LockPhysicalControls, Num(Flag(v == Str("on"))))) by {
      assert EventKey(AutoCleaningCapability, "autoCleaningMode") == AutoCleaningKey;
    }
    assert LockGetter(StatusCache.SetValue(snap, AutoCleaningSegment, "autoCleaningMode", v)) == Flag(v == Str("on")) by {
      CustomCapabilitySegments();
      PatchIsReadBack(snap, AutoCleaningSegment, "autoCleaningMode", v, Str("off"));
    }
  }

  /** ...whereas the cache patch a custom event causes (under the full
      capability name) leaves both custom getters' readings unchanged. */
  lemma CustomEventPatchesAreNotRead(snap: Snapshot, v: Value)
    ensures SwingModeGetter(StatusCache.SetValue(snap, OptionalModeCapability, "acOptionalMode", v)) == SwingModeGetter(snap)
    ensures LockGetter(StatusCache.SetValue(snap, AutoCleaningCapability, "autoCleaningMode", v)) == LockGetter(snap)
  {
    CustomCapabilitySegments();
    PatchInvisibleToDottedRead(snap, OptionalModeCapability, "acOptionalMode", v, Str("off"));
    PatchInvisibleToDottedRead(snap, AutoCleaningCapability, "autoCleaningMode", v, Str("off"));
  }

  /** The dispatch key joins capability and attribute, so a capability
      "custom" with attribute "autoCleaningMode.autoCleaningMode" is handled
      exactly like the auto-cleaning event. */
  lemma EventKeyIsAmbiguous(v: Value)
    ensures EventUpdate(CustomNamespace, "autoCleaningMode.autoCleaningMode", v, false)
         == EventUpdate(AutoCleaningCapability, "autoCleaningMode", v, false)
  {
    assert "autoCleaningMode.autoCleaningMode" == AutoCleaningSegment + ".autoCleaningMode";
    assert EventKey(CustomNamespace, "autoCleaningMode.autoCleaningMode") == AutoCleaningKey by {
      assert CustomNamespace + "." + (AutoCleaningSegment + ".autoCleaningMode")
          == CustomNamespace + "." + AutoCleaningSegment + ".autoCleaningMode";
    }
    assert EventKey(AutoCleaningCapability, "autoCleaningMode") == AutoCleaningKey;
  }
}
