/** The CAN and CAN-FD frame shared by every protocol layer. */
module Can {
  import opened Bytes

  const CLASSIC_MAX_PAYLOAD := 8
  const FD_MAX_PAYLOAD := 64

  /** A frame always holds 64 data bytes; only the first `size` of them are its payload. */
  type FrameData = s: seq<byte> | |s| == 64 witness Zeros(64)

  function Pad(s: seq<byte>): (d: FrameData)
    requires |s| <= FD_MAX_PAYLOAD
    ensures d[..|s|] == s
  {
    s + Zeros(FD_MAX_PAYLOAD - |s|)
  }

  datatype Frame = Frame(
    id: u32, size: u8, extended: bool, remote: bool, fd: bool, bitrateSwitch: bool, data: FrameData)
  {
    predicate Valid() {
      && (if extended then id <= 0x1FFF_FFFF else id <= 0x7FF)
      && size <= (if fd then FD_MAX_PAYLOAD else CLASSIC_MAX_PAYLOAD)
      && !(remote && fd)
      && (bitrateSwitch ==> fd)
    }

    /** The same frame with the unused data bytes cleared. */
    function Cleaned(): Frame {
      if size <= 64 then this.(data := Pad(data[..size])) else this
    }
  }
}
