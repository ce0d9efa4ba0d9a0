/** What travels through the daemon: samples of sensors, and the events of alert rules. */
module Samples {
  type SensorId = string

  datatype Reading = Scalar(v: real) | Counter(n: nat) | State(s: string) | Table
  datatype Sample = Sample(sensor: SensorId, ts: nat, reading: Reading)

  datatype Kind = Fired | Cleared
  datatype AlertEvent = AlertEvent(rule: string, ts: nat, kind: Kind)
}
