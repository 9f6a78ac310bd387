/** Device kinds and the descriptors that device enumeration produces. */
module Device {
  import opened Osc

  /** `MonomeDeviceType`: `Unknown` exists in the source but nothing produces it. */
  datatype MonomeDeviceType = Grid | Arc | Unknown

  /** `MonomeDeviceType::from(&str)`: a device whose type string mentions "arc" is an arc, anything else a grid. */
  function DeviceTypeFrom(s: string): (t: MonomeDeviceType)
    ensures t != Unknown
    ensures t == Arc <==> exists i :: OccursAt(s, "arc", i)
  {
    ContainsAt(s, "arc");
    if Contains(s, "arc") then Arc else Grid
  }

  /** The `Display` text of a device type. */
  function DeviceTypeName(t: MonomeDeviceType): string {
    if t == Grid then "grid" else "arc"
  }

  /** Printing a known device type and reading it back gives the same type; `Unknown` prints as, and reads back as, an arc. */
  lemma DeviceTypeNameRoundTrip(t: MonomeDeviceType)
    ensures t != Unknown ==> DeviceTypeFrom(DeviceTypeName(t)) == t
    ensures DeviceTypeFrom(DeviceTypeName(Unknown)) == Arc
  {
    assert OccursAt("arc", "arc", 0);
    if t == Grid {
      forall i | 0 <= i ensures !OccursAt("grid", "arc", i) {
        if i + 3 <= 4 {
          assert "grid"[i] != 'a';
        }
      }
    }
  }

  /** `MonomeDevice`: what the daemon announces about one attached device. */
  datatype MonomeDevice = MonomeDevice(name: string, deviceType: MonomeDeviceType, port: i32)

  /** `MonomeDevice::new`: the kind is read from the announced type string. */
  function NewDevice(name: string, typeName: string, port: i32): MonomeDevice {
    MonomeDevice(name, DeviceTypeFrom(typeName), port)
  }
}
