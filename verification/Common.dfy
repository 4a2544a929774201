/** Types shared by the data plane and the control plane. */
module Common {
  datatype Option<+T> = None | Some(value: T)

  type byte = b: int | 0 <= b < 256

  /** An IPv4 address as the number its four octets spell in network order. */
  type Ipv4 = n: int | 0 <= n < 0x1_0000_0000

  datatype Ip = V4(v4: Ipv4) | V6(v6: nat)

  type uint16 = n: int | 0 <= n < 0x1_0000

  datatype HealthStatus = Unknown | Healthy | Unhealthy

  /** A backend server of a pool. */
  datatype Backend = Backend(ip: Ip, port: uint16, weight: nat, drain: bool)
}
