/** An event as the gateway holds it (gateway/include/gateway/telemetry/event.hpp). */
module Events {

  /** 64-bit counters never exceed this. */
  const MAX_COUNTER := 0x7fff_ffff_ffff_ffff

  datatype Identity = Identity(device: string, boot: string, sequence: nat)

  /** `payload` is the MQTT message as received, byte for byte. */
  datatype Event = Event(id: Identity, payload: string, receivedAt: string)
}
