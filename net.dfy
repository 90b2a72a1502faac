/**
 * The values of Go's `net` package the configuration holds, and the library
 * calls the core makes on them. The parsers (net.ParseCIDR, net.ParseIP,
 * net.ResolveUDPAddr, which may consult DNS) and the String methods the
 * template prints with are not part of this model: they are supplied as a
 * record of functions, and properties that need them to agree say so in
 * their preconditions.
 */
module Net {
  import opened Bytes
  import opened Results

  /** net.IP. */
  type IP = seq<Byte>

  /** net.IPNet: the address as written and the mask of its prefix. */
  datatype IPNet = IPNet(ip: IP, mask: seq<Byte>)

  /** net.UDPAddr. */
  datatype UDPAddr = UDPAddr(ip: IP, port: int, zone: string)

  /** The library calls, as total functions: a parser returns None where Go returns an error. */
  datatype NetLib = NetLib(
    parseCIDR: string -> Option<IPNet>,
    parseIP: string -> Option<IP>,
    resolveUDPAddr: string -> Option<UDPAddr>,
    ipNetString: IPNet -> string,
    ipString: IP -> string,
    udpAddrString: UDPAddr -> string)
}
