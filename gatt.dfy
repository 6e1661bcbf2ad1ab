/**
  The part of the Android Bluetooth GATT surface that the library touches:
  bytes, identifiers, the status and state constants it compares against,
  discovered services and characteristics, and a log of the calls it issues
  to the stack (the stack itself is an oracle and is not modelled).
*/
module Gatt {
  import opened Wrappers

  /** A Java byte, as its unsigned value. */
  newtype byte = b: int | 0 <= b < 256

  /** A Bluetooth MAC address as the library passes it around. */
  type Address = string

  /** A UUID, compared through its string form as the library does. */
  type Uuid = string

  /** An opaque BluetoothGatt link handle returned by connectGatt. */
  type LinkId = nat

  const GATT_SUCCESS: int := 0
  const STATE_DISCONNECTED: int := 0
  const STATE_CONNECTED: int := 2

  const PROPERTY_NOTIFY: bv32 := 0x10
  const PROPERTY_INDICATE: bv32 := 0x20

  /** Client characteristic configuration values written to a descriptor. */
  const ENABLE_NOTIFICATION_VALUE: seq<byte> := [0x01, 0x00]
  const ENABLE_INDICATION_VALUE: seq<byte> := [0x02, 0x00]
  const DISABLE_NOTIFICATION_VALUE: seq<byte> := [0x00, 0x00]

  /** setMtu forwards only requests strictly above this value. */
  const MTU_FLOOR: int := 20

  datatype Descriptor = Descriptor(uuid: Uuid)

  datatype Characteristic = Characteristic(uuid: Uuid, properties: bv32, descriptors: seq<Descriptor>)
  {
    predicate CanNotify() { properties & PROPERTY_NOTIFY != 0 }
    predicate CanIndicate() { properties & PROPERTY_INDICATE != 0 }
  }

  datatype Service = Service(uuid: Uuid, characteristics: seq<Characteristic>)

  /**
    The configured identifiers (Ble.Options): the primary service, the extra
    services (entries may be null), the write and read characteristics, and
    the autoConnect flag handed to connectGatt.
  */
  datatype Options = Options(
    serviceUuid: Uuid,
    extraServiceUuids: seq<Option<Uuid>>,
    writeUuid: Uuid,
    readUuid: Uuid,
    autoConnect: bool)

  /** A call the library issues to the host Bluetooth stack. */
  datatype GattCall =
    | ConnectGatt(address: Address, autoConnect: bool)
    | DiscoverServices(address: Address)
    | GattDisconnect(address: Address)
    | GattClose(address: Address)
    | WriteCharacteristic(address: Address, cha: Uuid, value: seq<byte>)
    | ReadCharacteristic(address: Address, cha: Uuid)
    | ReadRemoteRssi(address: Address)
    | RequestMtu(address: Address, mtu: int)
    | SetNotification(address: Address, cha: Uuid, enabled: bool)
      /** `setTo` is None when the descriptor keeps whatever value it had. */
    | WriteDescriptor(address: Address, cha: Uuid, descriptor: Uuid, setTo: Option<seq<byte>>)

}
