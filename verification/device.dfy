/** The `Device` value and its `DeviceType` enumeration. */
module DeviceModel {
  import opened Wrappers

  /** The three kinds of network element. */
  datatype DeviceType = GATEWAY | SWITCH | ACCESS_POINT

  /**
   * One network element. The type field is nullable on the value itself
   * (the registry fills it in or rejects it); an absent uplink marks a root.
   */
  datatype Device = Device(deviceType: Option<DeviceType>, mac: string, uplink: Option<string>)

  /**
   * A MAC address is required and must not be empty. A `string` value is
   * never null, so only emptiness is left to exclude.
   */
  predicate ValidMac(mac: string): (b: bool)
    ensures b <==> mac != []
  {
    |mac| > 0
  }

  /** Every device type is one of the three variants, and they are distinct. */
  lemma DeviceTypeVariants(t: DeviceType)
    ensures t == GATEWAY || t == SWITCH || t == ACCESS_POINT
    ensures GATEWAY != SWITCH && SWITCH != ACCESS_POINT && GATEWAY != ACCESS_POINT
  {
  }
}
