// Requests: printing a command and what the printed bytes say.
module Commands {
  import opened Wrappers
  import opened HexField
  import opened Protocol
  import opened Decoding
  import Crc

  const REQUEST_SIZE: nat := 14
  const YR_REQUEST_SIZE: nat := 26

  // Requests carry the same kind of size and checksum fields as replies.
  function CrcPosition(request: seq<byte>): nat
    requires |request| >= FOOTER_SIZE
  {
    |request| - FOOTER_SIZE
  }

  // STX, the covered text, its checksum in four digits, ETX.
  function Framed(text: seq<byte>): seq<byte>
  {
    [STX] + text + ToHexString(Crc.Number(Crc.Checksum(text)), 4) + [ETX]
  }

  // encodeCommand of WorkerBase: the fixed request of a command.
  function EncodeCommand(k: Kind): seq<byte>
    requires !k.YR?
  {
    Framed(ToHexString(REQUEST_SIZE, 4) + Code(k))
  }

  // YRWorker::getCommand. area_type and area_number are 16-bit, the steps 32-bit numbers.
  datatype YrRequest = YrRequest(areaType: nat, areaNumber: nat, startStep: nat, endStep: nat)
  {
    predicate Representable()
    {
      areaType < 0x1_0000 && areaNumber < 0x1_0000 && startStep < 0x1_0000_0000 && endStep < 0x1_0000_0000
    }

    // The values that fit the digits the command has for them.
    predicate Fits()
    {
      areaType < 256 && areaNumber < 256 && startStep < 65536 && endStep < 65536
    }
  }

  function YrText(q: YrRequest): seq<byte>
  {
    ToHexString(YR_REQUEST_SIZE, 4) + Code(YR)
    + ToHexString(q.areaType, 2) + ToHexString(q.areaNumber, 2)
    + ToHexString(q.startStep, 4) + ToHexString(q.endStep, 4) + ToHexString(1, 2)
  }

  function EncodeYrCommand(q: YrRequest): seq<byte>
    requires q.Representable()
  {
    Framed(YrText(q))
  }

  // ----- reading a request back -----

  // Every request closes with the checksum of everything between STX and the checksum.
  ghost predicate Sealed(request: seq<byte>)
  {
    && |request| >= 11
    && request[0] == STX && request[|request| - 1] == ETX
    && Parsed(request, Field(CrcPosition(request), 4, Plain))
       == Some(Crc.Number(Crc.Checksum(request[1..CrcPosition(request)])))
  }

  // The size field tells the length.
  ghost predicate Sized(request: seq<byte>)
  {
    |request| >= 11 && Parsed(request, CMD_SIZE) == Some(|request|)
  }

  lemma PowerValues()
    ensures Power(16, 2) == 256 && Power(16, 4) == 65536 && Crc.Pow2(16) == 65536
  {
    assert Crc.Pow2(8) == 256;
    assert Crc.Pow2(12) == 4096;
  }

  lemma ChecksumDigits(text: seq<byte>)
    ensures |ToHexString(Crc.Number(Crc.Checksum(text)), 4)| == 4
    ensures FieldValue(ToHexString(Crc.Number(Crc.Checksum(text)), 4)) == Some(Crc.Number(Crc.Checksum(text)))
  {
    hide Crc.Checksum, ToHexString, FieldValue;
    Crc.NumberRoundTrip(Crc.Checksum(text));
    PowerValues();
    HexRoundTrip(Crc.Number(Crc.Checksum(text)), 4);
  }

  lemma FramedIsSealed(text: seq<byte>)
    requires |text| >= 5
    ensures |Framed(text)| == |text| + 6
    ensures Sealed(Framed(text))
    ensures Framed(text)[1..|text| + 1] == text
  {
    hide Crc.Checksum, Crc.Number, ToHexString, FieldValue;
    ChecksumDigits(text);
    var r := Framed(text);
    var digits := ToHexString(Crc.Number(Crc.Checksum(text)), 4);
    assert r[1..CrcPosition(r)] == text;
    assert Slice(r, Field(CrcPosition(r), 4, Plain)) == digits;
  }

  // The fixed request: 14 bytes, as its size field says, sealed, with the command's code.
  lemma CommandRoundTrip(k: Kind)
    requires !k.YR?
    ensures |EncodeCommand(k)| == REQUEST_SIZE
    ensures Sized(EncodeCommand(k)) && Sealed(EncodeCommand(k))
    ensures EncodeCommand(k)[5..9] == Code(k)
  {
    hide Framed, ToHexString, FieldValue, Sealed;
    var size := ToHexString(REQUEST_SIZE, 4);
    PowerValues();
    HexRoundTrip(REQUEST_SIZE, 4);
    FramedIsSealed(size + Code(k));
    var r := EncodeCommand(k);
    assert r[1..9] == size + Code(k);
    assert Slice(r, CMD_SIZE) == r[1..9][..4] == size;
    assert r[5..9] == r[1..9][4..] == Code(k);
  }

  lemma TextLength(q: YrRequest)
    ensures |YrText(q)| >= 20
    ensures |YrText(q)| == 20 <==> q.Fits()
  {
    hide ToHexString;
    PowerValues();
    HexRoundTrip(YR_REQUEST_SIZE, 4);
    HexRoundTrip(q.areaType, 2);
    HexRoundTrip(q.areaNumber, 2);
    HexRoundTrip(q.startStep, 4);
    HexRoundTrip(q.endStep, 4);
    HexRoundTrip(1, 2);
  }

  // The YR request says the truth about its length exactly when its values fit their
  // digits; it is sealed in any case.
  lemma YrCommandLength(q: YrRequest)
    requires q.Representable()
    ensures Sealed(EncodeYrCommand(q))
    ensures Sized(EncodeYrCommand(q)) <==> q.Fits()
    ensures q.Fits() ==> |EncodeYrCommand(q)| == YR_REQUEST_SIZE
  {
    hide Framed, ToHexString, FieldValue, Sealed;
    TextLength(q);
    FramedIsSealed(YrText(q));
    PowerValues();
    HexRoundTrip(YR_REQUEST_SIZE, 4);
    var r := EncodeYrCommand(q);
    var size := ToHexString(YR_REQUEST_SIZE, 4);
    assert r[1..5] == r[1..|YrText(q)| + 1][..4] == YrText(q)[..4];
    assert YrText(q)[..4] == size;
    assert Slice(r, CMD_SIZE) == size;
  }

  lemma FramedSlice(text: seq<byte>, f: Field)
    requires |text| >= 5 && 1 <= f.offset && f.End() <= |text| + 1
    ensures f.End() <= |Framed(text)|
    ensures Slice(Framed(text), f) == text[f.offset - 1..f.End() - 1]
  {
  }

  lemma YrTextSlices(q: YrRequest)
    requires q.Fits()
    ensures var t := YrText(q);
      && |t| == 20
      && t[4..6] == Code(YR)
      && t[6..8] == ToHexString(q.areaType, 2)
      && t[8..10] == ToHexString(q.areaNumber, 2)
      && t[10..14] == ToHexString(q.startStep, 4)
      && t[14..18] == ToHexString(q.endStep, 4)
      && t[18..20] == ToHexString(1, 2)
  {
    hide ToHexString, FieldValue;
    PowerValues();
    HexRoundTrip(YR_REQUEST_SIZE, 4);
    HexRoundTrip(q.areaType, 2);
    HexRoundTrip(q.areaNumber, 2);
    HexRoundTrip(q.startStep, 4);
    HexRoundTrip(q.endStep, 4);
    HexRoundTrip(1, 2);
  }

  // Decoding the fields of a YR request that fits gives the request back.
  lemma YrCommandRoundTrip(q: YrRequest)
    requires q.Representable() && q.Fits()
    ensures |EncodeYrCommand(q)| == YR_REQUEST_SIZE
    ensures EncodeYrCommand(q)[5..7] == Code(YR)
    ensures Parsed(EncodeYrCommand(q), Field(7, 2, Plain)) == Some(q.areaType)
    ensures Parsed(EncodeYrCommand(q), Field(9, 2, Plain)) == Some(q.areaNumber)
    ensures Parsed(EncodeYrCommand(q), Field(11, 4, Plain)) == Some(q.startStep)
    ensures Parsed(EncodeYrCommand(q), Field(15, 4, Plain)) == Some(q.endStep)
    ensures Parsed(EncodeYrCommand(q), Field(19, 2, Plain)) == Some(1)
  {
    hide Framed, ToHexString, FieldValue, YrText, Sealed;
    YrCommandLength(q);
    YrTextSlices(q);
    var t := YrText(q);
    FramedSlice(t, Field(5, 2, Plain));
    FramedSlice(t, Field(7, 2, Plain));
    HexRoundTrip(q.areaType, 2);
    FramedSlice(t, Field(9, 2, Plain));
    HexRoundTrip(q.areaNumber, 2);
    FramedSlice(t, Field(11, 4, Plain));
    HexRoundTrip(q.startStep, 4);
    FramedSlice(t, Field(15, 4, Plain));
    HexRoundTrip(q.endStep, 4);
    FramedSlice(t, Field(19, 2, Plain));
    HexRoundTrip(1, 2);
  }

  // getSafetyArea: areas and steps are counted from 1 by the caller, from 0 on the wire.
  function SafetyAreaRequest(areaType: nat, areaNumber: nat, startStep: nat, endStep: nat): YrRequest
  {
    YrRequest(areaType,
              if areaNumber == 0 then 0 else areaNumber - 1,
              if startStep == 0 then 0 else startStep - 1,
              if endStep == 0 then 0 else endStep - 1)
  }

  // The bytes of the request that getSafetyArea sends: the type as it is, the area and the
  // two steps less one, except that 0 stays 0, and a resolution of 1.
  lemma SafetyAreaBytes(areaType: nat, areaNumber: nat, startStep: nat, endStep: nat)
    requires areaType < 256 && areaNumber <= 256 && startStep <= 65536 && endStep <= 65536
    ensures SafetyAreaRequest(areaType, areaNumber, startStep, endStep).Representable()
    ensures var r := EncodeYrCommand(SafetyAreaRequest(areaType, areaNumber, startStep, endStep));
      && |r| == 26 && r[0] == 2 && FieldValue(r[1..5]) == Some(26) && r[5] == 'Y' as int && r[6] == 'R' as int
      && FieldValue(r[7..9]) == Some(areaType)
      && FieldValue(r[9..11]) == Some(if areaNumber == 0 then 0 else areaNumber - 1)
      && FieldValue(r[11..15]) == Some(if startStep == 0 then 0 else startStep - 1)
      && FieldValue(r[15..19]) == Some(if endStep == 0 then 0 else endStep - 1)
      && FieldValue(r[19..21]) == Some(1)
      && FieldValue(r[21..25]) == Some(Crc.Number(Crc.Checksum(r[1..21]))) && r[25] == 3
  {
    hide EncodeYrCommand, FieldValue, Crc.Checksum, Crc.Number;
    var q := SafetyAreaRequest(areaType, areaNumber, startStep, endStep);
    assert q.Fits();
    YrCommandLength(q);
    YrCommandRoundTrip(q);
    var r := EncodeYrCommand(q);
    assert r[5..7][0] == r[5] && r[5..7][1] == r[6];
  }

  // readSafetyAreas asks for 9 types of 32 areas over all 1081 steps: every one of these
  // requests fits, and no two of them print alike.
  lemma SafetyAreaRequests(t1: nat, n1: nat, t2: nat, n2: nat)
    requires t1 < 9 && 1 <= n1 <= 32 && t2 < 9 && 1 <= n2 <= 32
    ensures SafetyAreaRequest(t1, n1, 0, RANGES).Fits()
    ensures SafetyAreaRequest(t2, n2, 0, RANGES).Fits()
    ensures t1 != t2 || n1 != n2 ==>
      EncodeYrCommand(SafetyAreaRequest(t1, n1, 0, RANGES)) != EncodeYrCommand(SafetyAreaRequest(t2, n2, 0, RANGES))
  {
    hide EncodeYrCommand;
    YrCommandRoundTrip(SafetyAreaRequest(t1, n1, 0, RANGES));
    YrCommandRoundTrip(SafetyAreaRequest(t2, n2, 0, RANGES));
  }
}
