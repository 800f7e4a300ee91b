/** What an endpoint says and what the concentrator stores about it. */
module Records {
  import opened Words

  const ADDRESS_SIZE: nat := 6

  /** A BLE address, the only identity an endpoint has. */
  type Address = a: seq<uint8> | |a| == ADDRESS_SIZE witness [0, 0, 0, 0, 0, 0]

  datatype Reading = Reading(
    temperature: int8,
    humidity: uint8,
    pressure: uint16,
    accX: int16,
    accY: int16,
    accZ: int16,
    batteryMv: uint16,
    endpointTimestamp: uint32,
    statusFlags: uint8)

  /** One parsed advertisement, with the uptime at which the table records it. */
  datatype Advert = Advert(address: Address, rssi: int8, reading: Reading, time: uint32)

  /** One slot of the device table. */
  datatype Entry = Entry(
    address: Address,
    rssi: int8,
    reading: Reading,
    lastSeen: uint32,
    updateSeq: uint16,
    reportedSeq: uint16,
    inUse: bool)

  const NO_READING: Reading := Reading(0, 0, 0, 0, 0, 0, 0, 0, 0)
  const BLANK: Entry := Entry([0, 0, 0, 0, 0, 0], 0, NO_READING, 0, 0, 0, false)

  predicate Holds(e: Entry, a: Address) {
    e.inUse && e.address == a
  }

  /** A device is pending when its last reading has not been acknowledged. */
  predicate Pending(e: Entry) {
    e.inUse && e.updateSeq != e.reportedSeq
  }

  /** The entry shows exactly what the advertisement said. */
  predicate Shows(e: Entry, ad: Advert) {
    e.address == ad.address && e.rssi == ad.rssi && e.reading == ad.reading && e.lastSeen == ad.time
  }
}
