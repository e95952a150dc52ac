/** The crate's error type (src/errors.rs) and the `Option`/`Result` wrappers used throughout. */
module Errors {
  import opened Bytes

  datatype Option<+T> = None | Some(value: T)

  /** The socket step an I/O error came from. */
  datatype IoStep =
    | ClientRecv       // listen_socket.recv_from
    | UpstreamBind     // UdpSocket::bind("0.0.0.0:0")
    | UpstreamSend     // upstream_socket.send_to
    | UpstreamRecv     // upstream_socket.recv
    | ClientSend       // listen_socket.send_to
    | NetlinkOpen      // mnl::Socket::open
    | NetlinkClose     // mnl.close

  datatype Peer = Client | Upstream

  /** `ErrorKind::Io`, `ErrorKind::DnsPacket`, the `ErrorKind::Msg` values raised by
      `create_setname_matcher` (set name too long), `add_to_ipset` (set name too long) and
      `listen` (short header), plus the compile errors of the glob and regex crates. */
  datatype Error =
    | Io(step: IoStep)
    | DnsPacket
    | SetnameTooLong(setname: Str)
    | ShortHeader(from: Peer)
    | InvalidGlob(glob: Str)
    | InvalidRegex(regex: Str)

  /** `errors::Result<T>`. */
  datatype Result<+T> = Ok(value: T) | Err(error: Error)
}
