/** Process-wide network settings (config.py). The theme colours in the
    same file are presentation only and are not modelled. */
module Config {
  /** The UDP port every node binds and broadcasts to. */
  const UdpPort: nat := 5000
  /** The limited-broadcast address datagrams are sent to. */
  const BroadcastAddr: string := "255.255.255.255"
  /** The receive buffer size passed to `recvfrom`. */
  const BufferSize: nat := 1024
}
