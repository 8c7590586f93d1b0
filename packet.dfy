/** The network-layer packet and its fixed-layout wire string (network_3.py, class NetworkPacket). */
module Packets {
  import opened Common
  import opened Text

  /** Width of the destination field and of the protocol field. */
  const DstLength: nat := 5
  const ProtLength: nat := 1

  /** The two protocol names a packet may carry, and their one-character tags. */
  const DATA := "data"
  const CONTROL := "control"
  const DataTag := '1'
  const ControlTag := '2'

  datatype Packet = Packet(dst: string, prot: string, data: string)

  predicate KnownProtocol(prot: string) {
    prot == DATA || prot == CONTROL
  }

  /** `to_byte_S`: the zero-filled destination, the protocol tag, then the payload unchanged. */
  function Encode(p: Packet): (r: Result<string>)
    ensures r.Ok? <==> KnownProtocol(p.prot)
    ensures r.Err? ==> r.fault == UnknownProtocol(p.prot)
    ensures r.Ok? ==>
      var w := ZFill(p.dst, DstLength);
      && |r.value| == |w| + ProtLength + |p.data|
      && r.value[..|w|] == w
      && r.value[|w|] == (if p.prot == DATA then DataTag else ControlTag)
      && r.value[|w| + ProtLength..] == p.data
  {
    var w := ZFill(p.dst, DstLength);
    if p.prot == DATA then Ok(w + [DataTag] + p.data)
    else if p.prot == CONTROL then Ok(w + [ControlTag] + p.data)
    else Err(UnknownProtocol(p.prot))
  }

  function Min(a: nat, b: nat): nat {
    if a < b then a else b
  }

  /** `from_byte_S`: Python slices clamp at the end of the string, so a short string gives
      short (possibly empty) fields; only the protocol tag is checked. */
  function Decode(s: string): (r: Result<Packet>)
    ensures r.Ok? <==> |s| > DstLength && (s[DstLength] == DataTag || s[DstLength] == ControlTag)
    ensures r.Err? ==> r.fault == UnknownProtocol(s[Min(|s|, DstLength)..Min(|s|, DstLength + ProtLength)])
    ensures r.Ok? ==>
      && r.value.dst == Strip0(s[..DstLength])
      && r.value.prot == (if s[DstLength] == DataTag then DATA else CONTROL)
      && r.value.data == s[DstLength + ProtLength..]
  {
    var dst := Strip0(s[..Min(|s|, DstLength)]);
    var tag := s[Min(|s|, DstLength)..Min(|s|, DstLength + ProtLength)];
    var data := s[Min(|s|, DstLength + ProtLength)..];
    if tag == [DataTag] then Ok(Packet(dst, DATA, data))
    else if tag == [ControlTag] then Ok(Packet(dst, CONTROL, data))
    else Err(UnknownProtocol(tag))
  }

  /** A destination that comes back unchanged from the zero-filled field: at most five
      characters, no '0' at either end, and a sign only alone or in a full field. */
  predicate SurvivesPadding(dst: string) {
    && |dst| <= DstLength
    && NoZeroEnds(dst)
    && (dst != [] && IsSign(dst[0]) ==> |dst| == 1 || |dst| == DstLength)
  }

  /** Decoding an encoded packet gives back its protocol and payload, and the destination
      as `strip('0')` of its zero-filled field. */
  lemma DecodeEncode(p: Packet)
    requires KnownProtocol(p.prot)
    requires |p.dst| <= DstLength
    ensures Encode(p).Ok?
    ensures Decode(Encode(p).value) == Ok(p.(dst := Strip0(ZFill(p.dst, DstLength))))
  {
    var s := Encode(p).value;
    assert s[..DstLength] == ZFill(p.dst, DstLength);
  }

  lemma {:induction false} PaddingSurvives(dst: string)
    requires |dst| <= DstLength
    ensures Strip0(ZFill(dst, DstLength)) == dst <==> SurvivesPadding(dst)
  {
    var z := ZFill(dst, DstLength);
    if dst == [] {
      StripLeadingZeros(DstLength, dst);
      assert z == Zeros(DstLength) + dst;
    } else if |dst| == DstLength {
      assert z == dst;
    } else if !IsSign(dst[0]) {
      StripLeadingZeros(DstLength - |dst|, dst);
      if !NoZeroEnds(dst) {
        assert Strip0(dst) != dst;
      }
    } else if |dst| == 1 {
      StripTrailingZeros(dst[0], DstLength - 1);
      assert z == [dst[0]] + Zeros(DstLength - 1);
    } else if dst[|dst| - 1] == '0' {
      assert Strip0(z) != dst;
    } else {
      assert z[0] == dst[0] && z[|z| - 1] == dst[|dst| - 1];
      assert Strip0(z) == z;
    }
  }

  /** The codec's round trip holds exactly for the destinations that survive the padding:
      `"10"` comes back as `"1"`, and the control destination `"0"` comes back empty. */
  lemma RoundTrip(p: Packet)
    requires KnownProtocol(p.prot)
    ensures Encode(p).Ok?
    ensures Decode(Encode(p).value) == Ok(p) <==> SurvivesPadding(p.dst)
  {
    if |p.dst| <= DstLength {
      DecodeEncode(p);
      PaddingSurvives(p.dst);
    } else {
      var s := Encode(p).value;
      var r := Decode(s);
      assert r.Ok? ==> |r.value.dst| <= DstLength;
    }
  }

  /** A trailing zero of a destination is lost in transit. */
  lemma TrailingZeroLost(data: string)
    ensures Decode(Encode(Packet("H10", DATA, data)).value) == Ok(Packet("H1", DATA, data))
  {
    DecodeEncode(Packet("H10", DATA, data));
    assert ZFill("H10", DstLength) == "00H10";
    StripLeadingZeros(2, "H10");
    assert Strip0("H10") == "H1";
  }

  /** A routing update is addressed to 0 and arrives with an empty destination. */
  lemma ControlDestinationEmpty(data: string)
    ensures Encode(Packet("0", CONTROL, data)) == Ok("00000" + [ControlTag] + data)
    ensures Decode("00000" + [ControlTag] + data) == Ok(Packet("", CONTROL, data))
  {
    assert ZFill("0", DstLength) == Zeros(4) + "0" == "00000";
    StripLeadingZeros(5, "");
    assert Zeros(5) + "" == "00000";
    assert ("00000" + [ControlTag] + data)[..DstLength] == "00000";
  }
}
