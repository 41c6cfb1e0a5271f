// What a device prints: replies with a true size, a checksum and any data.
module Replies {
  import opened Wrappers
  import opened HexField
  import opened Protocol
  import opened Decoding
  import opened Worker
  import opened Commands
  import Crc

  // A reply of kind k: rest is everything from the end of the code to the footer.
  function Print(k: Kind, rest: seq<byte>): seq<byte>
    requires 10 + |Code(k)| + |rest| == ReplySize(k)
  {
    Framed(ToHexString(ReplySize(k), 4) + Code(k) + rest)
  }

  lemma SizeDigits(k: Kind)
    ensures |ToHexString(ReplySize(k), 4)| == 4
    ensures FieldValue(ToHexString(ReplySize(k), 4)) == Some(ReplySize(k))
  {
    hide ToHexString, FieldValue, ReplySize;
    PowerValues();
    HexRoundTrip(ReplySize(k), 4);
  }

  lemma PrintedText(k: Kind, rest: seq<byte>)
    requires 10 + |Code(k)| + |rest| == ReplySize(k)
    ensures var text := ToHexString(ReplySize(k), 4) + Code(k) + rest;
      |text| == ReplySize(k) - 6 && Print(k, rest) == Framed(text)
      && text[..4] == ToHexString(ReplySize(k), 4) && text[4..4 + |Code(k)|] == Code(k)
      && text[4 + |Code(k)|..] == rest
  {
    hide Framed, ToHexString, FieldValue, ReplySize, Code;
    SizeDigits(k);
  }

  lemma Printed(k: Kind, rest: seq<byte>)
    requires 10 + |Code(k)| + |rest| == ReplySize(k)
    ensures |Print(k, rest)| == ReplySize(k) && HasCode(Print(k, rest), k)
    ensures Parsed(Print(k, rest), CMD_SIZE) == Some(ReplySize(k))
    ensures Parsed(Print(k, rest), CrcField(k)) == Some(ComputedCrc(Print(k, rest)))
  {
    hide Framed, ToHexString, FieldValue, ReplySize, Code, Print, Crc.Checksum, Crc.Number;
    SizeDigits(k);
    PrintedText(k, rest);
    var text := ToHexString(ReplySize(k), 4) + Code(k) + rest;
    FramedIsSealed(text);
    FramedSlice(text, CMD_SIZE);
    FramedSlice(text, Field(5, |Code(k)|, Plain));
    assert Slice(Framed(text), Field(5, |Code(k)|, Plain)) == Framed(text)[5..9][..|Code(k)|];
  }

  lemma SliceBeyond(text: seq<byte>, skip: nat, from: nat, to: nat)
    requires skip <= from <= to <= |text|
    ensures text[from..to] == text[skip..][from - skip..to - skip]
  {
  }

  lemma PrintedSlice(k: Kind, rest: seq<byte>, f: Field)
    requires 10 + |Code(k)| + |rest| == ReplySize(k)
    requires 5 + |Code(k)| <= f.offset && f.End() <= ReplySize(k) - FOOTER_SIZE
    ensures |Print(k, rest)| == ReplySize(k)
    ensures Slice(Print(k, rest), f) == rest[f.offset - 5 - |Code(k)|..f.End() - 5 - |Code(k)|]
  {
    hide Framed, ToHexString, FieldValue, ReplySize, Code, Print, Slice;
    PrintedText(k, rest);
    var text, skip := ToHexString(ReplySize(k), 4) + Code(k) + rest, 4 + |Code(k)|;
    FramedIsSealed(text);
    FramedSlice(text, f);
    SliceBeyond(text, skip, f.offset - 1, f.End() - 1);
  }

  // The reply of a validating worker: its status and its data.
  function PrintStatus(k: Kind, status: nat, data: seq<byte>): seq<byte>
    requires !k.YR? && status < 256 && HEADER_SIZE + |data| + FOOTER_SIZE == ReplySize(k)
  {
    StatusDigits(status);
    Print(k, ToHexString(status, 2) + data)
  }

  lemma StatusDigits(status: nat)
    requires status < 256
    ensures |ToHexString(status, 2)| == 2 && FieldValue(ToHexString(status, 2)) == Some(status)
  {
    hide ToHexString, FieldValue;
    PowerValues();
    HexRoundTrip(status, 2);
  }

  lemma PrintedStatus(k: Kind, status: nat, data: seq<byte>)
    requires !k.YR? && status < 256 && HEADER_SIZE + |data| + FOOTER_SIZE == ReplySize(k)
    ensures |PrintStatus(k, status, data)| == ReplySize(k) && HasCode(PrintStatus(k, status, data), k)
    ensures Parsed(PrintStatus(k, status, data), CMD_SIZE) == Some(ReplySize(k))
    ensures Parsed(PrintStatus(k, status, data), STATUS) == Some(status)
    ensures Parsed(PrintStatus(k, status, data), CrcField(k)) == Some(ComputedCrc(PrintStatus(k, status, data)))
  {
    hide Print, ToHexString, FieldValue, ReplySize, Code, ComputedCrc;
    StatusDigits(status);
    var rest := ToHexString(status, 2) + data;
    Printed(k, rest);
    PrintedSlice(k, rest, STATUS);
    assert rest[0..2] == ToHexString(status, 2);
  }

  lemma PrintedData(k: Kind, status: nat, data: seq<byte>, f: Field)
    requires !k.YR? && status < 256 && HEADER_SIZE + |data| + FOOTER_SIZE == ReplySize(k)
    requires HEADER_SIZE <= f.offset && f.End() <= ReplySize(k) - FOOTER_SIZE
    ensures |PrintStatus(k, status, data)| == ReplySize(k)
    ensures Slice(PrintStatus(k, status, data), f) == data[f.offset - HEADER_SIZE..f.End() - HEADER_SIZE]
  {
    hide Print, ToHexString, FieldValue, ReplySize, Code, Slice;
    StatusDigits(status);
    var rest := ToHexString(status, 2) + data;
    PrintedSlice(k, rest, f);
    SliceBeyond(rest, 2, f.offset - 9, f.End() - 9);
    assert rest[2..] == data;
  }

  // The digits of data field i of kind k.
  function DataSlice(k: Kind, data: seq<byte>, i: nat): seq<byte>
    requires HEADER_SIZE + |data| + FOOTER_SIZE == ReplySize(k) && i < |DataFields(k)|
  {
    OrderedDataFields(k);
    data[DataFields(k)[i].offset - HEADER_SIZE..DataFields(k)[i].End() - HEADER_SIZE]
  }

  lemma PrintedField(k: Kind, status: nat, data: seq<byte>, i: nat)
    requires !k.YR? && status < 256 && HEADER_SIZE + |data| + FOOTER_SIZE == ReplySize(k)
    requires i < |DataFields(k)|
    ensures |PrintStatus(k, status, data)| == ReplySize(k) && DataFields(k)[i].End() <= ReplySize(k)
    ensures Parsed(PrintStatus(k, status, data), DataFields(k)[i]) == FieldValue(DataSlice(k, data, i))
  {
    hide PrintStatus, FieldValue, ReplySize, DataFields;
    OrderedDataFields(k);
    PrintedData(k, status, data, DataFields(k)[i]);
  }

  lemma PrintedFields(k: Kind, status: nat, data: seq<byte>)
    requires !k.YR? && status < 256 && HEADER_SIZE + |data| + FOOTER_SIZE == ReplySize(k)
    ensures |PrintStatus(k, status, data)| == ReplySize(k) && Inside(DataFields(k), 0, ReplySize(k))
    ensures forall i :: 0 <= i < |DataFields(k)| ==>
      Parsed(PrintStatus(k, status, data), DataFields(k)[i]) == FieldValue(DataSlice(k, data, i))
  {
    hide PrintStatus, FieldValue, ReplySize, DataFields, Parsed, DataSlice;
    OrderedDataFields(k);
    PrintedStatus(k, status, data);
    forall i | 0 <= i < |DataFields(k)|
      ensures Parsed(PrintStatus(k, status, data), DataFields(k)[i]) == FieldValue(DataSlice(k, data, i))
    {
      PrintedField(k, status, data, i);
    }
  }

  // A printed reply is accepted exactly when its status is zero and its data are numbers.
  lemma PrintedAccepted(k: Kind, status: nat, data: seq<byte>)
    requires !k.YR? && status < 256 && HEADER_SIZE + |data| + FOOTER_SIZE == ReplySize(k)
    ensures |PrintStatus(k, status, data)| == ReplySize(k) && HasCode(PrintStatus(k, status, data), k)
    ensures ProcessRaw(k, PrintStatus(k, status, data)).Some? <==>
      status == 0 && forall i :: 0 <= i < |DataFields(k)| ==> FieldValue(DataSlice(k, data, i)).Some?
  {
    hide PrintStatus, FieldValue, ReplySize, HasCode, ProcessRaw, DataFields, ComputedCrc, Parsed, DataSlice;
    PrintedStatus(k, status, data);
    PrintedFields(k, status, data);
    AcceptedReplies(k, PrintStatus(k, status, data));
  }

  // ----- a reply for every command -----

  function Nulls(n: nat): (s: seq<byte>)
    ensures |s| == n && forall i :: 0 <= i < n ==> s[i] == 48
  {
    seq(n, i => 48)
  }

  // The reply whose data are all zeros.
  function NullReply(k: Kind): seq<byte>
  {
    if k.YR? then Print(YR, Nulls(ReplySize(YR) - 12))
    else PrintStatus(k, 0, Nulls(ReplySize(k) - HEADER_SIZE - FOOTER_SIZE))
  }

  lemma FieldsHaveWidth(k: Kind)
    ensures forall i :: 0 <= i < |DataFields(k)| ==> DataFields(k)[i].width > 0
  {
  }

  lemma NullDataParse(k: Kind, data: seq<byte>)
    requires !k.YR? && data == Nulls(ReplySize(k) - HEADER_SIZE - FOOTER_SIZE)
    ensures forall i :: 0 <= i < |DataFields(k)| ==> FieldValue(DataSlice(k, data, i)).Some?
  {
    hide ReplySize, DataFields, FieldValue;
    FieldsHaveWidth(k);
    OrderedDataFields(k);
    forall i | 0 <= i < |DataFields(k)| ensures FieldValue(DataSlice(k, data, i)).Some? {
      FieldParses(DataSlice(k, data, i));
    }
  }

  lemma NullReplyAccepted(k: Kind)
    ensures |NullReply(k)| == ReplySize(k) && HasCode(NullReply(k), k)
    ensures Parsed(NullReply(k), CMD_SIZE) == Some(ReplySize(k))
    ensures !k.YR? ==> ProcessRaw(k, NullReply(k)).Some?
  {
    hide Print, PrintStatus, ReplySize, HasCode, ProcessRaw, DataFields, DataSlice, FieldValue, Parsed;
    if k.YR? {
      assert |Code(YR)| == 2;
      Printed(YR, Nulls(ReplySize(YR) - 12));
    } else {
      var data := Nulls(ReplySize(k) - HEADER_SIZE - FOOTER_SIZE);
      PrintedStatus(k, 0, data);
      PrintedAccepted(k, 0, data);
      NullDataParse(k, data);
    }
  }

  // ----- the buffer path accepts more -----

  // A printed AR00 reply whose first distance begins with a G.
  lemma BufferAcceptsMore(junk: Leftover) returns (frame: seq<byte>)
    ensures |frame| == ReplySize(AR00)
    ensures ProcessBuffer(AR00, frame, junk).Some? && ProcessRaw(AR00, frame).None?
  {
    hide PrintStatus, HasCode, ProcessRaw, FieldValue, Parsed, ProcessBuffer, SensingFields, DataFields, ComputedCrc;
    var data := Nulls(ReplySize(AR00) - HEADER_SIZE - FOOTER_SIZE)[39 := 71];
    frame := PrintStatus(AR00, 0, data);
    PrintedStatus(AR00, 0, data);
    PrintedFields(AR00, 0, data);
    PrintedAccepted(AR00, 0, data);
    DataStartsWithSensing(AR00);
    FirstDistance();
    FieldParses(DataSlice(AR00, data, 19));
    BufferAccepts(AR00, frame, junk);
    FieldsHaveWidth(AR00);
    OrderedSensingFields();
    forall i | 0 <= i < 19 ensures Parsed(frame, SensingFields()[i]).Some? {
      assert SensingFields()[i] == DataFields(AR00)[i];
      FieldParses(DataSlice(AR00, data, i));
    }
  }

  lemma FirstDistance()
    ensures |SensingFields()| == 19 && |DataFields(AR00)| > 19
    ensures DataFields(AR00)[19] == Field(50, 4, Plain)
  {
  }
}
