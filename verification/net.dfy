/** Addresses as the proxy handles them: octets for the wire, no textual form. */
module Net {

  type byte = b: int | 0 <= b < 256

  type u16 = n: int | 0 <= n < 65536

  /** An IPv4 or IPv6 address by its octets. */
  datatype IpAddrRaw = V4(octets: seq<byte>) | V6(octets: seq<byte>)

  type IpAddr = ip: IpAddrRaw | |ip.octets| == (if ip.V4? then 4 else 16) witness V4([0, 0, 0, 0])

  datatype SocketAddr = SocketAddr(ip: IpAddr, port: u16)

  datatype Option<+T> = None | Some(value: T)

  datatype Result<+T, +E> = Ok(value: T) | Err(error: E)
}
