/** Value types shared by every part of the tunnel: bytes, the fixed-width
    integers of the C code, frames and IPv4 socket addresses. */
module Wire {

  /** An `unsigned char`. */
  newtype byte = x: int | 0 <= x < 0x100

  /** An `unsigned short`, the type of a UDP port after `ntohs`. */
  newtype uint16 = x: int | 0 <= x < 0x1_0000

  /** An `unsigned int`, the type of an IPv4 address after `ntohl`. */
  newtype uint32 = x: int | 0 <= x < 0x1_0000_0000

  /** The raw bytes of one frame or one datagram payload; never parsed. */
  type Frame = seq<byte>

  /** The two parts of a `struct sockaddr_in` the tunnel uses, in host order. */
  datatype SockAddr = SockAddr(ip: uint32, port: uint16)

  /** One datagram: its payload and the peer it came from or goes to. */
  datatype Datagram = Datagram(payload: Frame, peer: SockAddr)

  datatype Option<T> = None | Some(value: T)
}
