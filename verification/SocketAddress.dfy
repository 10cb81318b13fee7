/** Socket addresses, as far as the program compares them. */
module SocketAddresses {
  /**
    The parts of a socket address that the list looks at. An IPv4 address has four address bytes where an
    IPv6 address has its flow label, and padding where an IPv6 address has its sixteen bytes.
   */
  datatype Address = V4(ip4: int, padding: seq<int>) | V6(flow: int, ip6: seq<int>)
}
