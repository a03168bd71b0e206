/**
 The Mux.cool frame codec. On the wire a frame is a two-byte metadata length, the metadata (id,
 status, option and, for New frames and UDP Keep frames, a target address with the port first),
 and when the data option is set a two-byte data length and the data. Numbers are big-endian.
 */
module MuxFrame {
  import opened Words

  const STATUS_NEW: byte := 1
  const STATUS_KEEP: byte := 2
  const STATUS_END: byte := 3
  const NETWORK_UDP: byte := 2
  const ATYP_IPV4: byte := 1
  const ATYP_DOMAIN: byte := 2
  const ATYP_IPV6: byte := 3
  const MAX_META: nat := 512
  const CHUNK: nat := 8192

  type u16 = x: int | 0 <= x < 65536

  datatype Address = Domain(name: seq<byte>) | IP(ip: seq<byte>)

  /** The zero value of an address: no name and a nil IP. */
  const NO_ADDRESS: Address := IP([])

  datatype Meta = Meta(id: u16, status: byte, option: byte, network: byte, address: Address, port: u16)

  datatype Error = UnexpectedEOF | MetaTooLong | MetaTooShort | DataTooLong | DomainTooLong | BadAddressType

  datatype Result<T> = Ok(value: T) | Err(error: Error)

  function U16(x: u16): (r: seq<byte>)
    ensures |r| == 2
  {
    [x / 256, x % 256]
  }

  function FromU16(hi: byte, lo: byte): u16 {
    (hi as int) * 256 + lo as int
  }

  lemma U16RoundTrip(x: u16)
    ensures FromU16(U16(x)[0], U16(x)[1]) == x
  {
  }

  /** `option & OptionData != 0` and `option |= OptionData` */
  predicate HasData(option: byte) {
    option % 2 == 1
  }

  function SetData(option: byte): byte {
    if HasData(option) then option else option + 1
  }

  /** `net.IP.To4`: four bytes, or the last four of an IPv4-mapped IPv6 address. */
  function To4(ip: seq<byte>): (r: seq<byte>)
    ensures |r| == 4 || r == []
  {
    if |ip| == 4 then ip
    else if |ip| == 16 && ip[..12] == [0, 0, 0, 0, 0, 0, 0, 0, 0, 0, 255, 255] then ip[12..]
    else []
  }

  /** `net.IP.To16` for an address that `To4` does not recognise. */
  function To16(ip: seq<byte>): seq<byte> {
    if |ip| == 16 then ip else []
  }

  // ---- Encoding ----

  predicate CarriesAddress(m: Meta) {
    m.status == STATUS_NEW || (m.status == STATUS_KEEP && m.network == NETWORK_UDP)
  }

  function AddrPort(port: u16, addr: Address): Result<seq<byte>> {
    match addr
    case Domain(name) =>
      if |name| > 255 then Err(DomainTooLong) else Ok(U16(port) + [ATYP_DOMAIN, |name|] + name)
    case IP(ip) =>
      if To4(ip) != [] then Ok(U16(port) + [ATYP_IPV4] + To4(ip))
      else Ok(U16(port) + [ATYP_IPV6] + To16(ip))
  }

  function MetaBody(m: Meta): Result<seq<byte>> {
    var fixed := U16(m.id) + [m.status, m.option];
    if !CarriesAddress(m) then Ok(fixed)
    else match AddrPort(m.port, m.address)
      case Err(e) => Err(e)
      case Ok(a) => Ok(fixed + [m.network] + a)
  }

  /** The bytes `WriteFrame` puts on the wire. */
  function FrameBytes(m: Meta, data: seq<byte>): Result<seq<byte>> {
    if |data| > CHUNK then Err(DataTooLong)
    else
      var m' := if |data| > 0 then m.(option := SetData(m.option)) else m;
      match MetaBody(m')
      case Err(e) => Err(e)
      case Ok(body) =>
        if |body| > MAX_META then Err(MetaTooLong)
        else Ok(U16(|body|) + body + if HasData(m'.option) then U16(|data|) + data else [])
  }

  /** `encodeHeader`: appends, and fills in the metadata length at the end. */
  method EncodeHeader(m: Meta, dataLen: u16) returns (r: Result<seq<byte>>)
    ensures match MetaBody(m)
            case Err(e) => r == Err(e)
            case Ok(body) =>
              if |body| > MAX_META then r == Err(MetaTooLong)
              else r == Ok(U16(|body|) + body + if HasData(m.option) then U16(dataLen) else [])
  {
    hide AddrPort;
    var dst: seq<byte> := [0, 0];
    dst := dst + U16(m.id);
    dst := dst + [m.status, m.option];
    if CarriesAddress(m) {
      dst := dst + [m.network];
      var a := AddrPort(m.port, m.address);
      if a.Err? {
        return Err(a.error);
      }
      dst := dst + a.value;
    }
    assert MetaBody(m).Ok? && dst == [0, 0] + MetaBody(m).value;
    var metaLen := |dst| - 2;
    if metaLen > MAX_META {
      return Err(MetaTooLong);
    }
    dst := dst[0 := metaLen / 256][1 := metaLen % 256];
    assert dst == U16(metaLen) + MetaBody(m).value;
    assert dst + [] == dst;
    if HasData(m.option) {
      dst := dst + U16(dataLen);
    }
    return Ok(dst);
  }

  /** `WriteFrame`; the bytes written, or the error. */
  method WriteFrame(m: Meta, data: seq<byte>) returns (r: Result<seq<byte>>)
    ensures r == FrameBytes(m, data)
  {
    if |data| > CHUNK {
      return Err(DataTooLong);
    }
    var m' := m;
    if |data| > 0 {
      m' := m.(option := SetData(m.option));
    }
    var hdr := EncodeHeader(m', |data|);
    if hdr.Err? {
      return hdr;
    }
    hide MetaBody;
    var out := hdr.value;
    ghost var body := MetaBody(m').value;
    assert HasData(m'.option) ==> out + data == U16(|body|) + body + (U16(|data|) + data);
    assert data == [] ==> out + data == out;
    if HasData(m'.option) && |data| > 0 {
      out := out + data;
    }
    return Ok(out);
  }

  // ---- Decoding ----

  function ReadAddrPort(buf: seq<byte>, off: nat): Result<(Address, u16)> {
    if off + 3 > |buf| then Err(UnexpectedEOF)
    else
      var port, atyp, o := FromU16(buf[off], buf[off + 1]), buf[off + 2], off + 3;
      if atyp == ATYP_IPV4 then
        if o + 4 > |buf| then Err(UnexpectedEOF) else Ok((IP(buf[o..o + 4]), port))
      else if atyp == ATYP_IPV6 then
        if o + 16 > |buf| then Err(UnexpectedEOF) else Ok((IP(buf[o..o + 16]), port))
      else if atyp == ATYP_DOMAIN then
        if o + 1 > |buf| then Err(UnexpectedEOF)
        else
          var n := buf[o];
          if o + 1 + n > |buf| then Err(UnexpectedEOF) else Ok((Domain(buf[o + 1..o + 1 + n]), port))
      else Err(BadAddressType)
  }

  /** `unmarshalMeta`; bytes after the target address are ignored. */
  function UnmarshalMeta(buf: seq<byte>): Result<Meta> {
    if |buf| < 4 then Err(MetaTooShort)
    else
      var m := Meta(FromU16(buf[0], buf[1]), buf[2], buf[3], 0, NO_ADDRESS, 0);
      var hasAddr := m.status == STATUS_NEW || (m.status == STATUS_KEEP && 4 < |buf| && buf[4] == NETWORK_UDP);
      if !hasAddr then Ok(m)
      else if 4 >= |buf| then Err(UnexpectedEOF)
      else match ReadAddrPort(buf, 5)
        case Err(e) => Err(e)
        case Ok(a) => Ok(m.(network := buf[4], address := a.0, port := a.1))
  }

  datatype Frame = Frame(meta: Meta, data: seq<byte>)

  /** `ReadFrame`: the frame at the front of the stream, and the rest of the stream. */
  function ReadFrame(wire: seq<byte>): Result<(Frame, seq<byte>)> {
    if |wire| < 2 then Err(UnexpectedEOF)
    else
      var metaLen := FromU16(wire[0], wire[1]);
      if metaLen > MAX_META then Err(MetaTooLong)
      else if metaLen < 4 then Err(MetaTooShort)
      else if |wire| < 2 + metaLen then Err(UnexpectedEOF)
      else match UnmarshalMeta(wire[2..2 + metaLen])
        case Err(e) => Err(e)
        case Ok(m) => ReadData(m, wire[2 + metaLen..])
  }

  /** The data part of a frame, when the option says there is one. */
  function ReadData(m: Meta, rest: seq<byte>): Result<(Frame, seq<byte>)> {
    if !HasData(m.option) then Ok((Frame(m, []), rest))
    else if |rest| < 2 then Err(UnexpectedEOF)
    else
      var n := FromU16(rest[0], rest[1]);
      if n > CHUNK then Err(DataTooLong)
      else if |rest| < 2 + n then Err(UnexpectedEOF)
      else Ok((Frame(m, rest[2..2 + n]), rest[2 + n..]))
  }

  // ---- Round trip ----

  /** An address the wire format can express: a name, or an IP of 4 or 16 bytes. */
  predicate Sendable(a: Address) {
    a.IP? ==> |a.ip| == 4 || |a.ip| == 16
  }

  /** What the receiver sees of an address: IPv4-mapped IPv6 comes back as IPv4. */
  function Normal(a: Address): Address {
    if a.IP? && To4(a.ip) != [] then IP(To4(a.ip)) else a
  }

  /** What the receiver sees of a frame: the data option set when there is data, and no address on
      frames that do not carry one. */
  function Received(m: Meta, data: seq<byte>): Frame {
    var m' := if |data| > 0 then m.(option := SetData(m.option)) else m;
    Frame(if CarriesAddress(m) then m'.(address := Normal(m.address))
          else m'.(network := 0, address := NO_ADDRESS, port := 0), data)
  }

  lemma AddrPortRoundTrip(port: u16, addr: Address, pre: seq<byte>)
    requires AddrPort(port, addr).Ok?
    ensures var buf := pre + AddrPort(port, addr).value;
            ReadAddrPort(buf, |pre|) == if Sendable(addr) then Ok((Normal(addr), port)) else Err(UnexpectedEOF)
  {
    var a := AddrPort(port, addr).value;
    var buf := pre + a;
    assert buf[|pre|] == a[0] && buf[|pre| + 1] == a[1] && buf[|pre| + 2] == a[2];
    U16RoundTrip(port);
    match addr
    case Domain(name) =>
      assert buf[|pre| + 3] == |name|;
      assert buf[|pre| + 4..|pre| + 4 + |name|] == name;
    case IP(ip) =>
      var v := if To4(ip) != [] then To4(ip) else To16(ip);
      assert buf[|pre| + 3..] == v;
      assert |v| == 4 ==> buf[|pre| + 3..|pre| + 7] == v;
      assert |v| == 16 ==> buf[|pre| + 3..|pre| + 19] == v;
  }

  lemma MetaRoundTrip(m: Meta)
    requires MetaBody(m).Ok?
    ensures 4 <= |MetaBody(m).value| <= 264
    ensures UnmarshalMeta(MetaBody(m).value) ==
            if !CarriesAddress(m) then Ok(m.(network := 0, address := NO_ADDRESS, port := 0))
            else if Sendable(m.address) then Ok(m.(address := Normal(m.address))) else Err(UnexpectedEOF)
  {
    var body := MetaBody(m).value;
    U16RoundTrip(m.id);
    if CarriesAddress(m) {
      var pre := U16(m.id) + [m.status, m.option] + [m.network];
      AddrPortRoundTrip(m.port, m.address, pre);
      assert body == pre + AddrPort(m.port, m.address).value;
    }
  }

  function DataPart(m: Meta, data: seq<byte>): seq<byte>
    requires |data| <= CHUNK
  {
    if HasData(m.option) then U16(|data|) + data else []
  }

  lemma DataRoundTrip(m: Meta, data: seq<byte>, rest: seq<byte>)
    requires |data| <= CHUNK && (|data| > 0 ==> HasData(m.option))
    ensures ReadData(m, DataPart(m, data) + rest) == Ok((Frame(m, data), rest))
  {
    hide U16;
    hide FromU16;
    U16RoundTrip(|data|);
    var wire := DataPart(m, data) + rest;
    if HasData(m.option) {
      assert wire[2..2 + |data|] == data && wire[2 + |data|..] == rest;
    } else {
      assert wire == rest;
    }
  }

  lemma ReadAfterMeta(body: seq<byte>, rest: seq<byte>)
    requires 4 <= |body| <= MAX_META
    ensures ReadFrame(U16(|body|) + body + rest) ==
            match UnmarshalMeta(body) case Err(e) => Err(e) case Ok(m) => ReadData(m, rest)
  {
    hide UnmarshalMeta;
    hide ReadData;
    hide U16;
    hide FromU16;
    var wire := U16(|body|) + body + rest;
    U16RoundTrip(|body|);
    assert wire[2..2 + |body|] == body && wire[2 + |body|..] == rest;
  }

  /** A frame that `WriteFrame` accepts is read back, up to normalisation, exactly when it carries
      no address or a sendable one; a New or UDP Keep frame with an IP of another length, such as a
      nil IP, is written without its address and cannot be read. */
  lemma FrameRoundTrip(m: Meta, data: seq<byte>, rest: seq<byte>)
    requires FrameBytes(m, data).Ok?
    ensures ReadFrame(FrameBytes(m, data).value + rest) ==
            if CarriesAddress(m) && !Sendable(m.address) then Err(UnexpectedEOF)
            else Ok((Received(m, data), rest))
  {
    hide MetaBody;
    hide UnmarshalMeta;
    hide ReadData;
    hide ReadFrame;
    hide Sendable;
    hide Normal;
    var m' := if |data| > 0 then m.(option := SetData(m.option)) else m;
    var body := MetaBody(m').value;
    MetaRoundTrip(m');
    var tail := DataPart(m', data);
    assert FrameBytes(m, data).value + rest == U16(|body|) + body + (tail + rest);
    ReadAfterMeta(body, tail + rest);
    if UnmarshalMeta(body).Ok? {
      DataRoundTrip(UnmarshalMeta(body).value, data, rest);
    }
  }

  /** Every frame that fits is accepted: only oversized data and names are refused. */
  lemma FrameAccepted(m: Meta, data: seq<byte>)
    ensures FrameBytes(m, data).Ok? <==>
            |data| <= CHUNK && !(CarriesAddress(m) && m.address.Domain? && |m.address.name| > 255)
  {
    var m' := if |data| > 0 then m.(option := SetData(m.option)) else m;
    if MetaBody(m').Ok? {
      MetaRoundTrip(m');
    }
  }

  // ---- Streams of frames ----

  /** Frames that `WriteFrame` accepts and `ReadFrame` can read. */
  predicate Deliverable(f: Frame) {
    FrameBytes(f.meta, f.data).Ok? && (CarriesAddress(f.meta) ==> Sendable(f.meta.address))
  }

  ghost function Wire(frames: seq<Frame>): seq<byte>
    requires forall i :: 0 <= i < |frames| ==> Deliverable(frames[i])
  {
    if frames == [] then []
    else
      assert Deliverable(frames[0]);
      FrameBytes(frames[0].meta, frames[0].data).value + Wire(frames[1..])
  }

  /** The frames of a stream are read back one by one. */
  lemma ReadNext(frames: seq<Frame>)
    requires frames != [] && forall i :: 0 <= i < |frames| ==> Deliverable(frames[i])
    ensures ReadFrame(Wire(frames)) == Ok((Received(frames[0].meta, frames[0].data), Wire(frames[1..])))
  {
    hide FrameBytes;
    hide ReadFrame;
    FrameRoundTrip(frames[0].meta, frames[0].data, Wire(frames[1..]));
  }

  function KeepMeta(id: u16): Meta {
    Meta(id, STATUS_KEEP, 1, 0, NO_ADDRESS, 0)
  }

  ghost function KeepFrames(id: u16, data: seq<byte>): (fs: seq<Frame>)
    ensures forall i :: 0 <= i < |fs| ==> fs[i].meta == KeepMeta(id) && 1 <= |fs[i].data| <= CHUNK
  {
    if data == [] then []
    else if |data| <= CHUNK then [Frame(KeepMeta(id), data)]
    else [Frame(KeepMeta(id), data[..CHUNK])] + KeepFrames(id, data[CHUNK..])
  }

  /** The data of a run of frames, in order. */
  ghost function FrameData(fs: seq<Frame>): seq<byte> {
    if fs == [] then [] else fs[0].data + FrameData(fs[1..])
  }

  /** Cutting a payload into Keep frames of that id neither loses nor reorders a byte, and all frames but
      the last are full. */
  lemma {:induction false} KeepFramesCarry(id: u16, data: seq<byte>)
    ensures FrameData(KeepFrames(id, data)) == data
    ensures forall f :: f in KeepFrames(id, data) ==>
              f.meta.id == id && f.meta.status == 2 && f.meta.option == 1 && f.meta.network == 0
    ensures forall i :: 0 <= i < |KeepFrames(id, data)| - 1 ==> |KeepFrames(id, data)[i].data| == 8192
    decreases |data|
  {
    if |data| > CHUNK {
      KeepFramesCarry(id, data[CHUNK..]);
      assert KeepFrames(id, data)[1..] == KeepFrames(id, data[CHUNK..]);
      assert data == data[..CHUNK] + data[CHUNK..];
    } else if data != [] {
      assert KeepFrames(id, data)[1..] == [];
    }
  }

  lemma KeepDeliverable(f: Frame, id: u16)
    requires f.meta == KeepMeta(id) && 1 <= |f.data| <= CHUNK
    ensures Deliverable(f)
  {
    FrameAccepted(f.meta, f.data);
  }

  /** `WriteData`: a payload as Keep frames of at most 8192 bytes. */
  method WriteData(id: u16, data: seq<byte>) returns (out: seq<byte>)
    ensures (forall i :: 0 <= i < |KeepFrames(id, data)| ==> Deliverable(KeepFrames(id, data)[i]))
            && out == Wire(KeepFrames(id, data))
  {
    hide FrameBytes;
    out := [];
    var left := data;
    forall i | 0 <= i < |KeepFrames(id, data)|
      ensures Deliverable(KeepFrames(id, data)[i])
    {
      KeepDeliverable(KeepFrames(id, data)[i], id);
    }
    ghost var all := KeepFrames(id, data);
    ghost var todo := all;
    while |left| > 0
      invariant todo == KeepFrames(id, left)
      invariant forall i :: 0 <= i < |todo| ==> Deliverable(todo[i])
      invariant out + Wire(todo) == Wire(all)
      decreases |left|
    {
      var n := if |left| > CHUNK then CHUNK else |left|;
      var r := WriteFrame(KeepMeta(id), left[..n]);
      assert left[..|left|] == left;
      assert todo[0] == Frame(KeepMeta(id), left[..n]);
      assert todo[1..] == KeepFrames(id, left[n..]);
      out := out + r.value;
      left := left[n..];
      todo := todo[1..];
    }
  }
}
