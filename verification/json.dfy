/** Shapes shared by the gateway and the accessory layer: JSON scalars as they
    occur in device status records and events, the nested status snapshot, and
    the device command record. */
module Json {
  import opened Wrappers

  /** A JSON scalar. Numbers are integers in this model. */
  datatype Value = Str(s: string) | Num(n: int) | Bool(b: bool) | Null

  /** One attribute record of a status snapshot, e.g. {"value": "on", "unit": "C"}. */
  type Record = map<string, Value>

  /** `components.main` of a device status: capability -> attribute -> record. */
  type Snapshot = map<string, map<string, Record>>

  type DeviceId = string

  /** Identifies one asynchronous caller awaiting a shared pending result. */
  type CallerId = nat

  /** JavaScript truthiness of an optional string: present and non-empty. */
  predicate TruthyStr(o: Option<string>) {
    o.Some? && o.value != ""
  }

  /** JavaScript truthiness of an optional number: present and non-zero. */
  predicate TruthyNum(o: Option<int>) {
    o.Some? && o.value != 0
  }

  /** A condition as the number 1 or 0, as characteristics and counters use it. */
  function Flag(b: bool): nat {
    if b then 1 else 0
  }

  /** A command as posted in the `commands` list of /devices/<id>/commands;
      `arguments` is None when the command object has no such field. */
  datatype Command = Command(component: string, capability: string, command: string, arguments: Option<seq<Value>>)
}
