/** The five-byte header of a VLESS encryption record, as both layers read it. */
module RecordHeader {
  import opened Words
  import opened Basics

  const HEADER_LEN: nat := 5

  function EncodeHeader(l: nat): seq<byte>
    requires l < 65536
  {
    [23, 3, 3, l / 256, l % 256]
  }

  /** Length announced by a plain header; 0 when it does not start with 23 3 3. The XOR layer uses
      it even when the record layer would call it an error. */
  function HeaderLength(h: seq<byte>): nat
    requires |h| == HEADER_LEN
  {
    if h[0] != 23 || h[1] != 3 || h[2] != 3 then 0
    else (h[3] as int) * 256 + h[4] as int
  }

  /** The announced length, or None outside 17 to 16640. */
  function DecodeHeader(h: seq<byte>): (l: Option<nat>)
    requires |h| == HEADER_LEN
  {
    var l := HeaderLength(h);
    if l < 17 || l > 16640 then None else Some(l)
  }

  /** What is accepted: exactly the headers that are written for these lengths. */
  lemma HeaderIff(h: seq<byte>, l: nat)
    requires |h| == 5
    ensures DecodeHeader(h) == Some(l) <==> 17 <= l <= 16640 && h == [23, 3, 3, l / 256, l % 256]
  {
  }

  lemma HeaderBytes(l: nat)
    requires l < 65536
    ensures EncodeHeader(l) == [23, 3, 3, l / 256, l % 256] && |EncodeHeader(l)| == HEADER_LEN == 5
  {
  }

  lemma HeaderRoundTrip(l: nat)
    requires 17 <= l <= 16640
    ensures DecodeHeader(EncodeHeader(l)) == Some(l) && HeaderLength(EncodeHeader(l)) == l
  {
  }
}
