/** Recognising RakNet offline messages by their fixed sixteen bytes. */
module RakNet {
  import opened Net

  const OFFLINE_MESSAGE_ID: seq<byte> :=
    [0x00, 0xff, 0xff, 0x00, 0xfe, 0xfe, 0xfe, 0xfe, 0xfd, 0xfd, 0xfd, 0xfd, 0x12, 0x34, 0x56, 0x78]

  const UNCONNECTED_PING_ID: byte := 0x01
  const UNCONNECTED_PING_OPEN_CONNECTIONS_ID: byte := 0x02

  predicate IsOfflinePing(payload: seq<byte>) {
    && |payload| >= 25
    && (payload[0] == UNCONNECTED_PING_ID || payload[0] == UNCONNECTED_PING_OPEN_CONNECTIONS_ID)
    && payload[9..25] == OFFLINE_MESSAGE_ID
  }
}
