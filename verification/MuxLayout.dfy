/**
 The Mux.cool wire format by position: which byte of a frame is what, in numbers only, for everything that
 is written and for everything that is read.
 */
module MuxLayout {
  import opened Words
  import opened MuxFrame

  /** The big-endian number at position `i`. */
  ghost function Num(b: seq<byte>, i: nat): nat
    requires i + 1 < |b|
  {
    256 * (b[i] as int) + b[i + 1] as int
  }

  // ---- Writing ----

  /** The bytes from `at` to `end` are the type of an address and the address. */
  ghost predicate AddressAt(b: seq<byte>, at: nat, end: nat, a: Address)
    requires at + 1 <= end <= |b|
  {
    match a
    case Domain(name) => b[at] == 2 && end == at + 2 + |name| && b[at + 1] == |name| && b[at + 2..end] == name
    case IP(ip) =>
      if |ip| == 4 then b[at] == 1 && b[at + 1..end] == ip
      else if |ip| == 16 && ip[..10] == [0, 0, 0, 0, 0, 0, 0, 0, 0, 0] && ip[10] == 255 && ip[11] == 255
      then b[at] == 1 && b[at + 1..end] == ip[12..]
      else b[at] == 3 && b[at + 1..end] == if |ip| == 16 then ip else []
  }

  lemma AddrLayout(port: u16, a: Address)
    requires AddrPort(port, a).Ok?
    ensures var b := AddrPort(port, a).value;
            3 <= |b| <= 259 && Num(b, 0) == port && AddressAt(b, 2, |b|, a)
  {
    if a.IP? && |a.ip| == 16 {
      assert a.ip[..12] == a.ip[..10] + [a.ip[10], a.ip[11]];
    }
  }

  lemma AddressShift(pre: seq<byte>, b: seq<byte>, post: seq<byte>, at: nat, a: Address)
    requires at + 1 <= |b| && AddressAt(b, at, |b|, a)
    ensures AddressAt(pre + b + post, |pre| + at, |pre| + |b|, a)
  {
    var all := pre + b + post;
    assert forall i, j :: 0 <= i <= j <= |b| ==> all[|pre| + i..|pre| + j] == b[i..j];
    assert forall i :: 0 <= i < |b| ==> all[|pre| + i] == b[i];
  }

  lemma BodyLayout(m: Meta)
    requires MetaBody(m).Ok?
    ensures var b := MetaBody(m).value;
            && 4 <= |b| && Num(b, 0) == m.id && b[2] == m.status && b[3] == m.option
            && if m.status == 1 || (m.status == 2 && m.network == 2)
               then 8 <= |b| && b[4] == m.network && Num(b, 5) == m.port && AddressAt(b, 7, |b|, m.address)
               else |b| == 4
  {
    if m.status == 1 || (m.status == 2 && m.network == 2) {
      AddrLayout(m.port, m.address);
      var pre := U16(m.id) + [m.status, m.option] + [m.network];
      var a := AddrPort(m.port, m.address).value;
      AddressShift(pre, a, [], 2, m.address);
      assert pre + a + [] == MetaBody(m).value;
    }
  }

  /** A written frame, byte by byte: the metadata length, the id, the status and the option, where data
      sets the lowest bit; for status 1, or 2 with network 2, the network, the port and the address with
      its type; then, when the lowest option bit is set, the length of the data and the data. */
  lemma WireLayout(m: Meta, data: seq<byte>)
    requires FrameBytes(m, data).Ok?
    ensures var b := FrameBytes(m, data).value;
            var option := if |data| > 0 && m.option % 2 == 0 then m.option as int + 1 else m.option as int;
            && |b| >= 6
            && var end := 2 + Num(b, 0);
               && Num(b, 2) == m.id && b[4] == m.status && b[5] == option && end <= |b|
               && (if m.status == 1 || (m.status == 2 && m.network == 2)
                   then end >= 10 && b[6] == m.network && Num(b, 7) == m.port && AddressAt(b, 9, end, m.address)
                   else end == 6)
               && b[end..] == if option % 2 == 1 then [|data| / 256, |data| % 256] + data else []
  {
    var m' := if |data| > 0 then m.(option := SetData(m.option)) else m;
    BodyLayout(m');
    var body, tail := MetaBody(m').value, DataPart(m', data);
    var b := FrameBytes(m, data).value;
    assert b == U16(|body|) + body + tail;
    assert forall i :: 0 <= i < |body| ==> b[2 + i] == body[i];
    hide MetaBody;
    assert b[2 + |body|..] == tail;
    if m.status == 1 || (m.status == 2 && m.network == 2) {
      AddressShift(U16(|body|), body, tail, 7, m.address);
    }
  }

  /** What is read back of a frame, by the status and network bytes: exactly frames with status 1, and
      with status 2 and network 2, come with their network, address and port; of any other frame only
      the id, the status, the option and the data come back. */
  lemma ReadsBack(m: Meta, data: seq<byte>, rest: seq<byte>)
    requires FrameBytes(m, data).Ok?
    ensures var r := ReadFrame(FrameBytes(m, data).value + rest);
            var option := if |data| > 0 && m.option % 2 == 0 then m.option as int + 1 else m.option as int;
            if m.status == 1 || (m.status == 2 && m.network == 2)
            then if m.address.IP? && |m.address.ip| != 4 && |m.address.ip| != 16 then r.Err?
                 else
                   var v4 := m.address.IP? && |m.address.ip| == 16
                     && m.address.ip[..12] == [0, 0, 0, 0, 0, 0, 0, 0, 0, 0, 255, 255];
                   var address := if v4 then IP(m.address.ip[12..]) else m.address;
                   r == Ok((Frame(Meta(m.id, m.status, option, m.network, address, m.port), data), rest))
            else r == Ok((Frame(Meta(m.id, m.status, option, 0, IP([]), 0), data), rest))
  {
    FrameRoundTrip(m, data, rest);
    hide FrameBytes;
    hide ReadFrame;
  }

  /** What is refused: data over 8192 bytes, and a name over 255 bytes where it would be written. */
  lemma WriteRefuses(m: Meta, data: seq<byte>)
    ensures var named := (m.status == 1 || (m.status == 2 && m.network == 2)) && m.address.Domain?;
            if |data| > 8192 then FrameBytes(m, data) == Err(DataTooLong)
            else if named && |m.address.name| > 255 then FrameBytes(m, data) == Err(DomainTooLong)
            else FrameBytes(m, data).Ok?
  {
    FrameAccepted(m, data);
  }

  // ---- Reading ----

  /** The metadata announces an address: status 1, or status 2 with 2 in the network position. */
  ghost predicate Announces(b: seq<byte>, len: nat)
    requires len >= 4 && |b| >= 2 + len
  {
    b[4] == 1 || (b[4] == 2 && len > 4 && b[6] == 2)
  }

  /** Bytes of the address with its type at offset 9, for the types 1, 2 and 3. */
  ghost function AddressLength(b: seq<byte>): nat
    requires |b| >= 11
  {
    if b[9] == 1 then 5 else if b[9] == 3 then 17 else 2 + b[10] as int
  }

  /** The metadata is whole and, where it announces an address, holds one of a known type. Anything
      behind the address is left alone. */
  ghost predicate MetaComplete(b: seq<byte>) {
    && |b| >= 2
    && var len := Num(b, 0);
       && 4 <= len <= 512 && |b| >= 2 + len
       && (Announces(b, len) ==> len >= 9 && 1 <= b[9] <= 3 && len >= 7 + AddressLength(b))
  }

  ghost predicate DataComplete(b: seq<byte>)
    requires MetaComplete(b)
  {
    var end := 2 + Num(b, 0);
    b[5] % 2 == 1 ==>
      && |b| >= end + 2 && Num(b, end) <= 8192
      && |b| >= end + 2 + Num(b, end)
  }

  ghost function AddressRead(b: seq<byte>): Address
    requires |b| >= 11 && |b| >= 9 + AddressLength(b)
  {
    if b[9] == 1 then IP(b[10..14]) else if b[9] == 3 then IP(b[10..26]) else Domain(b[11..11 + b[10] as int])
  }

  ghost function MetaRead(b: seq<byte>): Meta
    requires MetaComplete(b)
  {
    var id := Num(b, 2);
    if Announces(b, Num(b, 0)) then Meta(id, b[4], b[5], b[6], AddressRead(b), Num(b, 7))
    else Meta(id, b[4], b[5], 0, IP([]), 0)
  }

  lemma UnmarshalLayout(b: seq<byte>)
    requires |b| >= 6
    requires var len := Num(b, 0); 4 <= len <= 512 && |b| >= 2 + len
    ensures var r := UnmarshalMeta(b[2..2 + Num(b, 0)]);
            if MetaComplete(b) then r == Ok(MetaRead(b)) else r.Err?
  {
    var len := Num(b, 0);
    var buf := b[2..2 + len];
    assert forall i :: 0 <= i < len ==> buf[i] == b[2 + i];
    if Announces(b, len) && len >= 8 {
      if len >= 12 {
        assert buf[8..12] == b[10..14];
      }
      if len >= 24 {
        assert buf[8..24] == b[10..26];
      }
      if len >= 9 && len >= 9 + buf[8] as int {
        assert buf[9..9 + buf[8] as int] == b[11..11 + b[10] as int];
      }
    }
  }

  /** Whatever bytes come in: a frame is read exactly when its metadata is complete and its data is
      there, and then it is the one these bytes spell; the bytes behind it are left for the next. */
  lemma ReadLayout(b: seq<byte>)
    ensures ReadFrame(b).Ok? <==> MetaComplete(b) && DataComplete(b)
    ensures ReadFrame(b).Ok? ==>
              var end := 2 + Num(b, 0);
              var n := if b[5] % 2 == 1 then 2 + Num(b, end) else 0;
              && ReadFrame(b).value.0.meta == MetaRead(b)
              && ReadFrame(b).value.0.data == (if n == 0 then [] else b[end + 2..end + n])
              && ReadFrame(b).value.1 == b[end + n..]
  {
    hide MetaRead;
    if |b| >= 2 {
      var len := Num(b, 0);
      if 4 <= len <= 512 && |b| >= 2 + len {
        UnmarshalLayout(b);
        hide UnmarshalMeta;
        if MetaComplete(b) {
          assert MetaRead(b).option == b[5] by { OptionRead(b); }
          DataLayout(MetaRead(b), b, 2 + len);
        }
        hide ReadData;
      }
    }
  }

  lemma OptionRead(b: seq<byte>)
    requires MetaComplete(b)
    ensures MetaRead(b).option == b[5]
  {
  }

  lemma DataLayout(m: Meta, b: seq<byte>, end: nat)
    requires end <= |b|
    ensures var there := |b| >= end + 2 && Num(b, end) <= 8192 && |b| >= end + 2 + Num(b, end);
            if m.option % 2 == 1 then
              if there then ReadData(m, b[end..]) ==
                              Ok((Frame(m, b[end + 2..end + 2 + Num(b, end)]), b[end + 2 + Num(b, end)..]))
              else ReadData(m, b[end..]).Err?
            else ReadData(m, b[end..]) == Ok((Frame(m, []), b[end..]))
  {
    var rest := b[end..];
    if |b| >= end + 2 && |b| >= end + 2 + Num(b, end) {
      assert rest[2..2 + Num(b, end)] == b[end + 2..end + 2 + Num(b, end)];
      assert rest[2 + Num(b, end)..] == b[end + 2 + Num(b, end)..];
    }
  }

  /** Why a frame is not read: a stream that ends too early, unless a length in it is out of bounds or
      its address is of no known type. */
  lemma ReadRefuses(b: seq<byte>)
    requires !(MetaComplete(b) && DataComplete(b))
    ensures var len := if |b| < 2 then 0 else Num(b, 0);
            ReadFrame(b) == Err(
              if |b| < 2 then UnexpectedEOF
              else if len > 512 then MetaTooLong
              else if len < 4 then MetaTooShort
              else if |b| < 2 + len then UnexpectedEOF
              else if Announces(b, len) && len >= 8 && !(1 <= b[9] <= 3) then BadAddressType
              else if MetaComplete(b) && |b| >= 4 + len && Num(b, 2 + len) > 8192 then DataTooLong
              else UnexpectedEOF)
  {
    if |b| >= 2 {
      var len := Num(b, 0);
      if 4 <= len <= 512 && |b| >= 2 + len {
        var buf := b[2..2 + len];
        assert forall i :: 0 <= i < len ==> buf[i] == b[2 + i];
        if MetaComplete(b) {
          UnmarshalLayout(b);
          OptionRead(b);
          hide UnmarshalMeta;
          hide MetaRead;
        }
      }
    }
  }
}
