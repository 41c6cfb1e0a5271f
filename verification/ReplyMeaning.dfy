// What the tables of the protocol amount to, in plain text and plain offsets: the codes and
// sizes of the replies, which handler a frame runs, and what every byte of an accepted reply
// is and becomes.
module ReplyMeaning {
  import opened Wrappers
  import opened HexField
  import opened Protocol
  import opened Decoding
  import opened Worker
  import opened PacketWorker
  import opened Framing
  import opened ReplyMatching
  import Commands
  import Crc

  // ----- codes and sizes -----

  // The four characters of the header and the sub-header.
  predicate Says(frame: seq<byte>, code: string)
    requires |frame| >= 11
  {
    |code| == 4 && forall i :: 0 <= i < 4 ==> frame[5 + i] == code[i] as int
  }

  function Text(k: Kind): string
  {
    match k
    case AR00 => "AR00"
    case AR01 => "AR01"
    case AR02 => "AR02"
    case AR03 => "AR03"
    case AR04 => "AR04"
    case AR05 => "AR05"
    case AR06 => "AR06"
    case AR07 => "AR07"
    case AR08 => "AR08"
    case VR00 => "VR00"
    case XR00 => "XR00"
    case ID00 => "ID00"
    case YR => "YR"
  }

  // The text that names the worker of a kind.
  predicate Named(frame: seq<byte>, k: Kind)
    requires |frame| >= 11
  {
    if k.YR? then frame[5] == 'Y' as int && frame[6] == 'R' as int else Says(frame, Text(k))
  }

  lemma CodeIsText(k: Kind)
    ensures |Code(k)| == |Text(k)| && forall i :: 0 <= i < |Code(k)| ==> Code(k)[i] == Text(k)[i] as int
  {
  }

  lemma Codes(frame: seq<byte>, k: Kind)
    requires |frame| >= 11
    ensures HasCode(frame, k) <==> Named(frame, k)
  {
    CodeIsText(k);
    assert |Text(YR)| == 2 && Text(YR)[0] == 'Y' && Text(YR)[1] == 'R';
    hide ReplySize, Code, Text;
    var c := frame[5..9];
    assert forall i :: 0 <= i < 4 ==> c[i] == frame[5 + i];
    if HasCode(frame, k) {
      assert forall i :: 0 <= i < |Code(k)| ==> c[i] == Code(k)[i];
    }
    if Named(frame, k) {
      assert c[..|Code(k)|] == Code(k);
    }
  }

  lemma Sizes()
    ensures ReplySize(AR00) == 4379 && ReplySize(AR01) == 8703 && ReplySize(AR06) == 8699
    ensures ReplySize(VR00) == 123 && ReplySize(XR00) == 106 && ReplySize(ID00) == 32 && ReplySize(YR) == 4352
    ensures forall k: Kind :: k.AR02? || k.AR03? || k.AR04? || k.AR05? || k.AR07? || k.AR08? ==> ReplySize(k) == 16
  {
  }

  // The filter passes exactly the headers of the thirteen kinds.
  lemma KnownHeaders(frame: seq<byte>)
    requires |frame| >= 11
    ensures KnownHeader(frame) <==> exists k: Kind :: frame[5..7] == Code(k)[..2]
    ensures KnownHeader(frame) <==>
      (frame[6] == 'R' as int && frame[5] in {'A' as int, 'V' as int, 'X' as int, 'Y' as int})
      || (frame[5] == 'I' as int && frame[6] == 'D' as int)
  {
    hide ReplySize;
    var h := frame[5..7];
    assert h == [frame[5], frame[6]];
    if KnownHeader(frame) {
      var k := if h == [65, 82] then AR00 else if h == [86, 82] then VR00
               else if h == [88, 82] then XR00 else if h == [73, 68] then ID00 else YR;
      assert h == Code(k)[..2];
    }
    forall k: Kind | h == Code(k)[..2] ensures KnownHeader(frame) {
      assert h[0] == Code(k)[0] && h[1] == Code(k)[1];
    }
  }

  // When a header starts the read of a frame.
  lemma GoodHeaders(frame: seq<byte>)
    requires |frame| >= 11
    ensures GoodHeader(frame) <==>
      (exists k: Kind :: frame[5..7] == Code(k)[..2])
      && FieldValue(frame[1..5]).Some? && FieldValue(frame[1..5]).value <= 8703
  {
    hide KnownHeader, FieldValue;
    KnownHeaders(frame);
  }

  // The bytes of a fixed request: its length, the text of its code, and the checksum.
  lemma CommandBytes(k: Kind)
    requires !k.YR?
    ensures var r := Commands.EncodeCommand(k);
      && |r| == 14 && r[0] == 2 && FieldValue(r[1..5]) == Some(14) && Says(r, Text(k))
      && FieldValue(r[9..13]) == Some(Crc.Number(Crc.Checksum(r[1..9]))) && r[13] == 3
  {
    hide Commands.EncodeCommand, FieldValue, Crc.Checksum, Crc.Number, Code, Text;
    Commands.CommandRoundTrip(k);
    CodeIsText(k);
    FourCharacters(k);
    var r := Commands.EncodeCommand(k);
    forall i | 0 <= i < 4 ensures r[5 + i] == Text(k)[i] as int {
      assert r[5..9][i] == r[5 + i];
    }
  }

  lemma FourCharacters(k: Kind)
    requires !k.YR?
    ensures |Text(k)| == 4
  {
  }

  // A packet counts as processed exactly when it runs a handler.
  lemma ProcessedMeaning(packet: seq<byte>)
    requires |packet| == PACKET_SIZE
    ensures Dispatch(packet).processed <==> Dispatch(packet).call.Some?
  {
    hide Route, ProcessRaw, ProcessYr, Parsed, ReplySize;
  }

  // ----- every reply gets through -----

  lemma ReplyIsKnown(k: Kind, frame: seq<byte>)
    requires IsReply(k, frame)
    ensures KnownFrame(frame) && SelfContained(frame)
    ensures FrameOutcome(frame) == Outcome(true, Some(Call(k, DecodedReply(k, frame))))
  {
    hide ReplySize, Parsed, FrameOutcome, ProcessRaw, ProcessYr, KnownHeader, Code;
    ReplyIsWellSized(k, frame);
    ReplyOutcome(k, frame);
    KnownHeaders(frame);
    assert frame[5..9][..2] == frame[5..7];
    assert Code(k)[..2] == frame[5..7];
    if HasCode(frame, YR) {
      CodesDiffer(frame);
      assert k.YR?;
    }
  }

  ghost predicate AreReplies(kinds: seq<Kind>, frames: seq<seq<byte>>)
  {
    |kinds| == |frames| && forall i :: 0 <= i < |kinds| ==> IsReply(kinds[i], frames[i])
  }

  ghost predicate AreCalls(calls: seq<Call>, kinds: seq<Kind>, frames: seq<seq<byte>>)
    requires AreReplies(kinds, frames)
  {
    |calls| == |kinds| && forall i :: 0 <= i < |kinds| ==> calls[i] == Call(kinds[i], DecodedReply(kinds[i], frames[i]))
  }

  lemma {:induction false} ReplyCalls(kinds: seq<Kind>, frames: seq<seq<byte>>)
    requires AreReplies(kinds, frames)
    ensures AllSelfContained(frames) && AreCalls(FrameCalls(frames), kinds, frames)
  {
    hide IsReply, DecodedReply, KnownFrame, SelfContained, FrameOutcome;
    forall i | 0 <= i < |frames| ensures KnownFrame(frames[i]) && SelfContained(frames[i]) {
      ReplyIsKnown(kinds[i], frames[i]);
    }
    if frames != [] {
      var n := |frames| - 1;
      ReplyCalls(kinds[..n], frames[..n]);
      ReplyIsKnown(kinds[n], frames[n]);
    }
  }

  // Valid replies of any of the thirteen kinds, in whatever chunks, are all delivered, and
  // each runs its own handler on its own decoding.
  method ReceiveReplies(client: TcpClient, ghost kinds: seq<Kind>, ghost frames: seq<seq<byte>>,
                        chunks: seq<seq<byte>>)
    requires client.Valid() && client.connected && client.stopped && !client.overrun
    requires AreReplies(kinds, frames) && Flatten(chunks) == Flatten(frames)
    modifies client, client.receiveBuffer.raw
    ensures client.Valid() && !client.overrun && old(client.packets) <= client.packets
    ensures var delivered := client.packets[|old(client.packets)|..];
      && |delivered| == |frames|
      && (forall i :: 0 <= i < |frames| ==> Holds(delivered[i], frames[i]))
      && AllPackets(delivered) && AreCalls(CallsOf(delivered), kinds, frames)
  {
    hide IsReply, AreCalls, KnownFrame, SelfContained, TcpClient.Valid, CallsOf, FrameCalls;
    ReplyCalls(kinds, frames);
    assert forall i :: 0 <= i < |frames| ==> KnownFrame(frames[i]);
    ReceiveFrames(client, frames, chunks);
  }

  // ----- which handler a frame runs -----

  // A scan, by its text and its length.
  predicate LooksLikeScan(frame: seq<byte>)
    requires |frame| >= 11
  {
    || Says(frame, "AR00") || (Says(frame, "AR02") && |frame| == 4379)
    || Says(frame, "AR01") || (Says(frame, "AR04") && |frame| == 8703)
    || Says(frame, "AR06") || (Says(frame, "AR07") && |frame| == 8699)
  }

  // The worker of a frame, by its text and its length.
  predicate GoesTo(frame: seq<byte>, k: Kind)
    requires |frame| >= 11
  {
    match k
    case AR00 => Says(frame, "AR00") || (Says(frame, "AR02") && |frame| == 4379)
    case AR01 => Says(frame, "AR01") || (Says(frame, "AR04") && |frame| == 8703)
    case AR06 => Says(frame, "AR06") || (Says(frame, "AR07") && |frame| == 8699)
    case _ => Named(frame, k) && !LooksLikeScan(frame)
  }

  lemma NamedOnce(frame: seq<byte>, j: Kind, k: Kind)
    requires |frame| >= 11 && Named(frame, j) && Named(frame, k)
    ensures j == k
  {
    hide Code, HasCode;
    Codes(frame, j);
    Codes(frame, k);
    CodesDiffer(frame);
  }

  lemma RoutedTo(frame: seq<byte>, k: Kind)
    requires |frame| >= 11
    ensures Route(frame, |frame|) == Some(k) <==> GoesTo(frame, k)
  {
    hide Code, HasCode, Route, ReplySize, Says;
    Sizes();
    RouteMeaning(frame, |frame|, k);
    forall j ensures HasCode(frame, j) <==> Named(frame, j) { Codes(frame, j); }
    forall j | Named(frame, j) && Named(frame, k) ensures j == k { NamedOnce(frame, j, k); }
    assert Named(frame, AR00) == Says(frame, "AR00") && Named(frame, AR02) == Says(frame, "AR02");
    assert Named(frame, AR01) == Says(frame, "AR01") && Named(frame, AR04) == Says(frame, "AR04");
    assert Named(frame, AR06) == Says(frame, "AR06") && Named(frame, AR07) == Says(frame, "AR07");
  }

  lemma ScanWorkers(frame: seq<byte>, k: Kind)
    requires |frame| >= 11 && GoesTo(frame, k)
    ensures LooksLikeScan(frame) <==> k.AR00? || k.AR01? || k.AR06?
  {
    hide Says;
  }

  lemma SliceOfFront(packet: seq<byte>, n: nat, f: Field)
    requires f.End() <= n <= |packet|
    ensures Slice(packet[..n], f) == Slice(packet, f)
  {
  }

  // Which handler a frame runs, and on what: the one its text and length say, if the frame
  // has the length of that reply and is accepted, and none otherwise.
  lemma Handled(frame: seq<byte>, k: Kind)
    requires WellSized(frame) && GoesTo(frame, k) && !k.YR?
    ensures FrameOutcome(frame) ==
      if |frame| == ReplySize(k) && ProcessRaw(k, frame).Some?
      then Outcome(true, Some(Call(k, ProcessRaw(k, frame).value))) else Outcome(false, None)
  {
    hide ReplySize, Route, Parsed, GoesTo;
    RoutedTo(frame, k);
    var packet := frame + seq(PACKET_SIZE - |frame|, i => 0);
    SameRoute(packet, frame);
    if |frame| == ReplySize(k) {
      assert packet[..ReplySize(k)] == frame;
    } else {
      SliceOfFront(packet, ReplySize(k), CMD_SIZE);
      ParsedSlice(packet, packet[..ReplySize(k)], CMD_SIZE);
    }
  }

  lemma Unhandled(frame: seq<byte>)
    requires WellSized(frame) && forall k :: !GoesTo(frame, k)
    ensures FrameOutcome(frame) == Outcome(false, None)
  {
    hide ReplySize, Route, Parsed, GoesTo;
    var packet := frame + seq(PACKET_SIZE - |frame|, i => 0);
    SameRoute(packet, frame);
    if Route(frame, |frame|).Some? {
      RoutedTo(frame, Route(frame, |frame|).value);
    }
  }

  // A frame that runs a handler raises the flag of the reply slot if and only if it does not
  // look like a scan.
  lemma RaisesFlag(v: Slot, p: Packet)
    requires WellSized(p.frame) && FrameOutcome(p.frame).call.Some? && !v.ready
    ensures Taken(v, p).ready <==> !LooksLikeScan(p.frame)
  {
    hide FrameOutcome, ReplySize, Route, LooksLikeScan, GoesTo, Parsed;
    CallIsRouted(p.frame);
    RoutedTo(p.frame, FrameOutcome(p.frame).call.value.kind);
    ScanWorkers(p.frame, FrameOutcome(p.frame).call.value.kind);
  }

  lemma CallIsRouted(frame: seq<byte>)
    requires WellSized(frame) && FrameOutcome(frame).call.Some?
    ensures Route(frame, |frame|) == Some(FrameOutcome(frame).call.value.kind)
  {
    hide ReplySize, Route, ProcessRaw, ProcessYr, Parsed;
    SameRoute(frame + seq(PACKET_SIZE - |frame|, i => 0), frame);
  }

  // ----- what is in an accepted reply -----

  // Bytes from up to to spell a number.
  predicate Spells(raw: seq<byte>, from: nat, to: nat)
  {
    from <= to <= |raw| && FieldValue(raw[from..to]).Some?
  }

  function Spelled(raw: seq<byte>, from: nat, to: nat): nat
    requires Spells(raw, from, to)
  {
    FieldValue(raw[from..to]).value
  }

  // The number that the host finds in a field.
  function Held(reply: seq<byte>, from: nat, to: nat): nat
    requires from <= to <= |reply|
  {
    Host(reply[from..to])
  }

  predicate StoredPlain(raw: seq<byte>, reply: seq<byte>, from: nat, to: nat)
  {
    Spells(raw, from, to) && to <= |reply| && Held(reply, from, to) == Spelled(raw, from, to)
  }

  predicate StoredFlag(raw: seq<byte>, reply: seq<byte>, at: nat)
  {
    SpellsFlag(raw, at) && at < |reply| && reply[at] == if Spelled(raw, at, at + 1) == 0 then 0 else 1
  }

  predicate SpellsFlag(raw: seq<byte>, at: nat)
  {
    Spells(raw, at, at + 1)
  }

  predicate SpellsReading(raw: seq<byte>, i: nat)
  {
    Spells(raw, 50 + 4 * i, 54 + 4 * i)
  }

  predicate StoredReading(raw: seq<byte>, reply: seq<byte>, i: nat)
  {
    StoredPlain(raw, reply, 50 + 4 * i, 54 + 4 * i)
  }

  // The header of an accepted reply: its length, status 0, and the checksum of all bytes
  // between STX and the checksum.
  ghost predicate GoodHeaderAndFooter(raw: seq<byte>)
  {
    var n := |raw|;
    && n >= 16
    && Spells(raw, 1, 5) && Spelled(raw, 1, 5) == n
    && Spells(raw, 9, 11) && Spelled(raw, 9, 11) == 0
    && Spells(raw, n - 5, n - 1) && Spelled(raw, n - 5, n - 1) == Crc.Number(Crc.Checksum(raw[1..n - 5]))
  }

  // Operating mode; area; error state; error code; lockout, OSSD 1 and 2, warning 1 and 2,
  // OSSD 3 and 4; muting 1 and 2, reset requests 1 and 2; encoder speed.
  predicate StateSpells(raw: seq<byte>)
  {
    && SpellsFlag(raw, 11) && Spells(raw, 12, 14) && SpellsFlag(raw, 14) && Spells(raw, 15, 17)
    && (forall i :: 17 <= i < 24 ==> SpellsFlag(raw, i))
    && (forall i :: 26 <= i < 30 ==> SpellsFlag(raw, i))
    && Spells(raw, 30, 34)
  }

  predicate StateStored(raw: seq<byte>, reply: seq<byte>)
  {
    && |reply| == |raw| && StateSpells(raw)
    && StoredFlag(raw, reply, 11)
    && Held(reply, 12, 14) == Spelled(raw, 12, 14) + 1
    && StoredFlag(raw, reply, 14)
    && Held(reply, 15, 17) == (if Spelled(raw, 15, 17) == 0 then 0 else Spelled(raw, 15, 17) + 0x40)
    && (forall i :: 17 <= i < 24 ==> StoredFlag(raw, reply, i))
    && (forall i :: 26 <= i < 30 ==> StoredFlag(raw, reply, i))
    && StoredPlain(raw, reply, 30, 34)
  }

  // How many numbers of four digits follow the sensing data of a scan.
  function NumberCount(k: Kind): nat
  {
    match k
    case AR00 => 1081
    case AR01 => 2162
    case AR06 => 2161
    case _ => 0
  }

  // And the timestamp, laser off, the contaminated window, and the readings.
  predicate ScanSpells(raw: seq<byte>, count: nat)
  {
    && StateSpells(raw)
    && Spells(raw, 34, 42) && SpellsFlag(raw, 42) && SpellsFlag(raw, 43)
    && forall i :: 0 <= i < count ==> SpellsReading(raw, i)
  }

  predicate ScanStored(raw: seq<byte>, reply: seq<byte>, count: nat)
  {
    && StateStored(raw, reply)
    && StoredPlain(raw, reply, 34, 42) && StoredFlag(raw, reply, 42) && StoredFlag(raw, reply, 43)
    && forall i :: 0 <= i < count ==> StoredReading(raw, reply, i)
  }

  // The status reply: laser off and eighteen flags of the slaves, the timestamp and the
  // contaminated window.
  predicate StatusSpells(raw: seq<byte>)
  {
    && StateSpells(raw)
    && (forall i :: 34 <= i < 53 ==> SpellsFlag(raw, i))
    && Spells(raw, 53, 61) && SpellsFlag(raw, 61)
  }

  predicate StatusStored(raw: seq<byte>, reply: seq<byte>)
  {
    && StateStored(raw, reply)
    && (forall i :: 34 <= i < 53 ==> StoredFlag(raw, reply, i))
    && StoredPlain(raw, reply, 53, 61) && StoredFlag(raw, reply, 61)
  }

  // A field, by what becomes of it.
  predicate FieldStored(raw: seq<byte>, reply: seq<byte>, f: Field)
  {
    && f.End() <= |raw| == |reply| && Parsed(raw, f).Some?
    && Stored(reply, f) == Adjusted(f.adjust, Parsed(raw, f).value)
  }

  lemma PlainStored(raw: seq<byte>, reply: seq<byte>, from: nat, width: nat)
    requires FieldStored(raw, reply, Field(from, width, Plain))
    ensures StoredPlain(raw, reply, from, from + width)
  {
    hide FieldValue;
  }

  lemma FlagStored(raw: seq<byte>, reply: seq<byte>, at: nat)
    requires FieldStored(raw, reply, Field(at, 1, Flag))
    ensures StoredFlag(raw, reply, at)
  {
    hide FieldValue;
    assert reply[at..at + 1] == [reply[at]];
    assert Host([reply[at]]) == reply[at] by { assert [reply[at]][1..] == []; }
  }

  lemma AcceptedField(k: Kind, raw: seq<byte>, i: nat)
    requires !k.YR? && |raw| == ReplySize(k) && ProcessRaw(k, raw).Some?
    requires i < |DataFields(k)| && Roomy(DataFields(k)[i])
    ensures FieldStored(raw, ProcessRaw(k, raw).value, DataFields(k)[i])
  {
    hide ReplySize, DataFields, ReplyFields, ProcessRaw, Parsed, Stored, Roomy;
    AcceptedReplies(k, raw);
    ReplyFieldsAre(k);
    assert Stores(raw, ReplyFields(k)[i + 3], ProcessRaw(k, raw).value);
    StoresNumber(raw, DataFields(k)[i], ProcessRaw(k, raw).value);
  }

  // The fields of the sensor state, one by one.
  function StateList(): seq<Field>
  {
    [Field(11, 1, Flag), Field(12, 2, NextArea), Field(14, 1, Flag), Field(15, 2, ErrorCode),
     Field(17, 1, Flag), Field(18, 1, Flag), Field(19, 1, Flag), Field(20, 1, Flag), Field(21, 1, Flag),
     Field(22, 1, Flag), Field(23, 1, Flag),
     Field(26, 1, Flag), Field(27, 1, Flag), Field(28, 1, Flag), Field(29, 1, Flag), Field(30, 4, Plain)]
  }

  lemma StateIs()
    ensures StateFields() == StateList()
  {
    assert Flags(17, 7) == StateList()[4..11];
    assert Flags(26, 4) == StateList()[11..15];
  }

  predicate AllRoomy(fields: seq<Field>)
  {
    forall i :: 0 <= i < |fields| ==> Roomy(fields[i])
  }

  lemma FieldsRoomy(k: Kind)
    ensures AllRoomy(DataFields(k))
  {
    hide Roomy, Elements, Flags;
    StateIs();
    assert AllRoomy(StateList()) by { ListRoomy(); }
    TailsRoomy();
    ElementsRoomy(50, RANGES);
    ElementsRoomy(50, RANGES_MULTIECHO);
    ElementsRoomy(50 + 4 * RANGES, RANGES);
  }

  lemma ListRoomy()
    ensures AllRoomy(StateList())
  {
  }

  lemma TailsRoomy()
    ensures AllRoomy([Field(34, 8, Plain)] + Flags(42, 2))
    ensures AllRoomy(Flags(34, 19) + [Field(53, 8, Plain), Field(61, 1, Flag)])
  {
  }

  lemma ElementsRoomy(offset: nat, count: nat)
    ensures AllRoomy(Elements(offset, count))
  {
  }

  lemma StateListed(k: Kind)
    requires k.AR00? || k.AR01? || k.AR06? || k.XR00?
    ensures |DataFields(k)| >= 16 && DataFields(k)[..16] == StateList()
  {
    hide StateFields, Elements, Flags;
    StateIs();
    assert |StateList()| == 16;
    if k.XR00? {
      assert StatusFields()[..16] == StateFields();
    } else {
      assert SensingFields()[..16] == StateFields();
      assert DataFields(k)[..19] == SensingFields();
      assert DataFields(k)[..16] == DataFields(k)[..19][..16];
    }
  }

  ghost predicate AllStored(raw: seq<byte>, reply: seq<byte>, fields: seq<Field>)
  {
    forall i :: 0 <= i < |fields| ==> FieldStored(raw, reply, fields[i])
  }

  lemma StateHolds(raw: seq<byte>, reply: seq<byte>)
    requires AllStored(raw, reply, StateList())
    ensures StateStored(raw, reply)
  {
    hide FieldValue, FieldStored, Spells, SpellsFlag, StoredFlag, StoredPlain;
    var l := StateList();
    forall i | 17 <= i < 24 ensures StoredFlag(raw, reply, i) && SpellsFlag(raw, i) {
      assert l[i - 13] == Field(i, 1, Flag);
      FlagOf(raw, reply, i);
    }
    forall i | 26 <= i < 30 ensures StoredFlag(raw, reply, i) && SpellsFlag(raw, i) {
      assert l[i - 15] == Field(i, 1, Flag);
      FlagOf(raw, reply, i);
    }
    assert l[0] == Field(11, 1, Flag) && l[1] == Field(12, 2, NextArea) && l[2] == Field(14, 1, Flag);
    assert l[3] == Field(15, 2, ErrorCode) && l[15] == Field(30, 4, Plain);
    FlagOf(raw, reply, 11);
    FlagOf(raw, reply, 14);
    PlainOf(raw, reply, 30, 4);
    TwoOf(raw, reply);
  }

  lemma FlagOf(raw: seq<byte>, reply: seq<byte>, at: nat)
    requires FieldStored(raw, reply, Field(at, 1, Flag))
    ensures StoredFlag(raw, reply, at) && SpellsFlag(raw, at) && at < |raw| == |reply|
  {
    hide FieldValue;
    FlagStored(raw, reply, at);
  }

  lemma PlainOf(raw: seq<byte>, reply: seq<byte>, from: nat, width: nat)
    requires FieldStored(raw, reply, Field(from, width, Plain))
    ensures StoredPlain(raw, reply, from, from + width) && Spells(raw, from, from + width)
  {
    hide FieldValue;
    PlainStored(raw, reply, from, width);
  }

  lemma TwoOf(raw: seq<byte>, reply: seq<byte>)
    requires FieldStored(raw, reply, Field(12, 2, NextArea)) && FieldStored(raw, reply, Field(15, 2, ErrorCode))
    ensures |raw| == |reply| >= 17 && Spells(raw, 12, 14) && Spells(raw, 15, 17)
    ensures Held(reply, 12, 14) == Spelled(raw, 12, 14) + 1
    ensures Held(reply, 15, 17) == if Spelled(raw, 15, 17) == 0 then 0 else Spelled(raw, 15, 17) + 0x40
  {
    hide FieldValue;
  }

  // ----- acceptance and decoding, by plain offsets -----

  lemma HeaderMeaning(k: Kind, raw: seq<byte>)
    requires !k.YR? && |raw| == ReplySize(k)
    ensures Inside(DataFields(k), 0, |raw|)
    ensures ProcessRaw(k, raw).Some? <==> GoodHeaderAndFooter(raw) && AllParse(raw, DataFields(k))
  {
    hide ReplySize, DataFields, ProcessRaw, FieldValue, Crc.Checksum, Crc.Number;
    AcceptedReplies(k, raw);
    OrderedDataFields(k);
  }

  lemma AcceptedFields(k: Kind, raw: seq<byte>)
    requires !k.YR? && |raw| == ReplySize(k) && ProcessRaw(k, raw).Some?
    ensures AllStored(raw, ProcessRaw(k, raw).value, DataFields(k))
  {
    hide ReplySize, DataFields, ProcessRaw, FieldStored, Roomy;
    FieldsRoomy(k);
    forall i | 0 <= i < |DataFields(k)| ensures FieldStored(raw, ProcessRaw(k, raw).value, DataFields(k)[i]) {
      AcceptedField(k, raw, i);
    }
  }

  lemma StoredPrefix(raw: seq<byte>, reply: seq<byte>, fields: seq<Field>, n: nat)
    requires AllStored(raw, reply, fields) && n <= |fields|
    ensures AllStored(raw, reply, fields[..n])
  {
    hide FieldStored;
  }

  // Where the other fields of a scan lie.
  lemma ScanListed(k: Kind)
    requires k.AR00? || k.AR01? || k.AR06?
    ensures |DataFields(k)| == 19 + NumberCount(k)
    ensures DataFields(k)[16] == Field(34, 8, Plain)
    ensures DataFields(k)[17] == Field(42, 1, Flag) && DataFields(k)[18] == Field(43, 1, Flag)
    ensures forall i :: 0 <= i < NumberCount(k) ==> DataFields(k)[19 + i] == Field(50 + 4 * i, 4, Plain)
  {
    hide StateFields, Elements, Flags;
    assert Flags(42, 2) == [Field(42, 1, Flag), Field(43, 1, Flag)] by { TwoFlags(); }
    var s := SensingFields();
    assert s[16..] == [Field(34, 8, Plain), Field(42, 1, Flag), Field(43, 1, Flag)];
    assert DataFields(k)[..19] == s;
    ElementsAt(50, RANGES);
    ElementsAt(50, RANGES_MULTIECHO);
    ElementsAt(50 + 4 * RANGES, RANGES);
  }

  lemma TwoFlags()
    ensures Flags(42, 2) == [Field(42, 1, Flag), Field(43, 1, Flag)]
  {
  }

  lemma ElementsAt(offset: nat, count: nat)
    ensures forall i :: 0 <= i < count ==> Elements(offset, count)[i] == Field(offset + 4 * i, 4, Plain)
  {
  }

  // An accepted scan holds, field by field, what its digits spell: the area one higher, a
  // non-zero error code 0x40 higher, flags as 0 or 1, everything else as it is.
  lemma ScanMeaning(k: Kind, raw: seq<byte>)
    requires (k.AR00? || k.AR01? || k.AR06?) && |raw| == ReplySize(k) && ProcessRaw(k, raw).Some?
    ensures GoodHeaderAndFooter(raw) && ScanSpells(raw, NumberCount(k))
    ensures ScanStored(raw, ProcessRaw(k, raw).value, NumberCount(k))
  {
    hide ReplySize, DataFields, ProcessRaw, FieldStored, FieldValue, Spells, SpellsFlag, StoredFlag, StoredPlain;
    hide GoodHeaderAndFooter, StateStored, StateSpells, StateList;
    var reply, d := ProcessRaw(k, raw).value, DataFields(k);
    HeaderMeaning(k, raw);
    AcceptedFields(k, raw);
    StateListed(k);
    StoredPrefix(raw, reply, d, 16);
    StateHolds(raw, reply);
    StateStoredSpells(raw, reply);
    ScanListed(k);
    PlainOf(raw, reply, 34, 8);
    FlagOf(raw, reply, 42);
    FlagOf(raw, reply, 43);
    forall i | 0 <= i < NumberCount(k) ensures StoredReading(raw, reply, i) && SpellsReading(raw, i) {
      assert d[19 + i] == Field(50 + 4 * i, 4, Plain);
      PlainOf(raw, reply, 50 + 4 * i, 4);
    }
  }

  lemma StateStoredSpells(raw: seq<byte>, reply: seq<byte>)
    requires StateStored(raw, reply)
    ensures StateSpells(raw)
  {
  }

  lemma ParsedAs(raw: seq<byte>, from: nat, width: nat, adjust: Adjust)
    requires Spells(raw, from, from + width)
    ensures from + width <= |raw| && Parsed(raw, Field(from, width, adjust)).Some?
  {
  }

  lemma FlagParsed(raw: seq<byte>, at: nat)
    requires SpellsFlag(raw, at)
    ensures at < |raw| && Parsed(raw, Field(at, 1, Flag)).Some?
  {
  }

  ghost predicate Parses(raw: seq<byte>, f: Field)
  {
    f.End() <= |raw| && Parsed(raw, f).Some?
  }

  lemma ListShape(i: nat)
    requires i < 16 && i != 1 && i != 3 && i != 15
    ensures var f := StateList()[i];
      f == Field(f.offset, 1, Flag) && (f.offset in {11, 14} || 17 <= f.offset < 24 || 26 <= f.offset < 30)
  {
  }

  lemma StateParses(raw: seq<byte>)
    requires StateSpells(raw)
    ensures forall i :: 0 <= i < 16 ==> Parses(raw, StateList()[i])
  {
    hide FieldValue, Parsed, SpellsFlag, Spells;
    var l := StateList();
    forall i | 0 <= i < 16 ensures Parses(raw, l[i]) {
      if i == 1 {
        ParsedAs(raw, 12, 2, NextArea);
      } else if i == 3 {
        ParsedAs(raw, 15, 2, ErrorCode);
      } else if i == 15 {
        ParsedAs(raw, 30, 4, Plain);
      } else {
        ListShape(i);
        FlagParsed(raw, l[i].offset);
      }
    }
  }

  lemma AllParses(raw: seq<byte>, k: Kind)
    requires |raw| == ReplySize(k) && forall i :: 0 <= i < |DataFields(k)| ==> Parses(raw, DataFields(k)[i])
    ensures Inside(DataFields(k), 0, |raw|) && AllParse(raw, DataFields(k))
  {
    hide DataFields, ReplySize, Parsed;
  }

  lemma ScanParses(k: Kind, raw: seq<byte>)
    requires (k.AR00? || k.AR01? || k.AR06?) && |raw| == ReplySize(k) && ScanSpells(raw, NumberCount(k))
    ensures Inside(DataFields(k), 0, |raw|) && AllParse(raw, DataFields(k))
  {
    hide ReplySize, DataFields, FieldValue, Parses, SpellsFlag, StateSpells, StateList;
    var d := DataFields(k);
    StateListed(k);
    ScanListed(k);
    StateParses(raw);
    forall i | 0 <= i < |d| ensures Parses(raw, d[i]) {
      if i < 16 {
        assert d[i] == StateList()[i];
      } else if i == 16 {
        assert Parses(raw, Field(34, 8, Plain)) by { ParsesIs(raw, 34, 8); }
      } else if i < 19 {
        FlagParses(raw, 25 + i);
      } else {
        assert SpellsReading(raw, i - 19);
        assert d[19 + (i - 19)] == Field(50 + 4 * (i - 19), 4, Plain);
        ParsesIs(raw, 50 + 4 * (i - 19), 4);
      }
    }
    AllParses(raw, k);
  }

  lemma ParsesIs(raw: seq<byte>, from: nat, width: nat)
    requires Spells(raw, from, from + width)
    ensures Parses(raw, Field(from, width, Plain))
  {
    hide FieldValue;
  }

  lemma FlagParses(raw: seq<byte>, at: nat)
    requires SpellsFlag(raw, at)
    ensures Parses(raw, Field(at, 1, Flag))
  {
    hide FieldValue;
  }

  // A scan is accepted exactly when its header and its checksum are good and everything in
  // it is a number.
  lemma ScanAccepted(k: Kind, raw: seq<byte>)
    requires (k.AR00? || k.AR01? || k.AR06?) && |raw| == ReplySize(k)
    ensures ProcessRaw(k, raw).Some? <==> GoodHeaderAndFooter(raw) && ScanSpells(raw, NumberCount(k))
  {
    hide ReplySize, DataFields, ProcessRaw, GoodHeaderAndFooter, ScanSpells, ScanStored, AllParse;
    HeaderMeaning(k, raw);
    if ProcessRaw(k, raw).Some? {
      ScanMeaning(k, raw);
    } else if ScanSpells(raw, NumberCount(k)) {
      ScanParses(k, raw);
    }
  }

  lemma StatusListed()
    ensures |DataFields(XR00)| == 37
    ensures forall i :: 16 <= i < 35 ==> DataFields(XR00)[i] == Field(18 + i, 1, Flag)
    ensures DataFields(XR00)[35] == Field(53, 8, Plain) && DataFields(XR00)[36] == Field(61, 1, Flag)
  {
    hide StateFields;
  }

  // A status reply is accepted exactly when its header and its checksum are good and its
  // fields are numbers, and then holds what they spell.
  lemma StatusMeaning(raw: seq<byte>)
    requires |raw| == 106
    ensures |raw| == ReplySize(XR00)
    ensures ProcessRaw(XR00, raw).Some? <==> GoodHeaderAndFooter(raw) && StatusSpells(raw)
    ensures ProcessRaw(XR00, raw).Some? ==> StatusStored(raw, ProcessRaw(XR00, raw).value)
  {
    hide ReplySize, DataFields, ProcessRaw, FieldStored, FieldValue, Spells, SpellsFlag, StoredFlag, StoredPlain;
    hide GoodHeaderAndFooter, StateStored, StateSpells, StateList, Parses, AllParse;
    Sizes();
    var d := DataFields(XR00);
    HeaderMeaning(XR00, raw);
    StateListed(XR00);
    StatusListed();
    if ProcessRaw(XR00, raw).Some? {
      var reply := ProcessRaw(XR00, raw).value;
      AcceptedFields(XR00, raw);
      StoredPrefix(raw, reply, d, 16);
      StateHolds(raw, reply);
      StateStoredSpells(raw, reply);
      forall i | 34 <= i < 53 ensures StoredFlag(raw, reply, i) && SpellsFlag(raw, i) {
        assert d[i - 18] == Field(i, 1, Flag);
        FlagOf(raw, reply, i);
      }
      PlainOf(raw, reply, 53, 8);
      FlagOf(raw, reply, 61);
    } else if StatusSpells(raw) {
      StateParses(raw);
      forall i | 0 <= i < |d| ensures Parses(raw, d[i]) {
        if i < 16 {
          assert d[i] == StateList()[i];
        } else if i < 35 {
          FlagParses(raw, 18 + i);
        } else if i == 35 {
          ParsesIs(raw, 53, 8);
        } else {
          FlagParses(raw, 61);
        }
      }
      AllParses(raw, XR00);
    }
  }

  // The other replies are accepted exactly when their header and their checksum are good.
  lemma PlainMeaning(k: Kind, raw: seq<byte>)
    requires !(k.AR00? || k.AR01? || k.AR06? || k.XR00? || k.YR?) && |raw| == ReplySize(k)
    ensures ProcessRaw(k, raw).Some? <==> GoodHeaderAndFooter(raw)
  {
    hide ReplySize, ProcessRaw, GoodHeaderAndFooter;
    HeaderMeaning(k, raw);
  }

  // The header and the checksum become numbers too.
  lemma HeaderStored(k: Kind, raw: seq<byte>)
    requires !k.YR? && |raw| == ReplySize(k) && ProcessRaw(k, raw).Some?
    ensures var n, reply := |raw|, ProcessRaw(k, raw).value;
      && GoodHeaderAndFooter(raw) && |reply| == n
      && StoredPlain(raw, reply, 1, 5) && StoredPlain(raw, reply, 9, 11) && StoredPlain(raw, reply, n - 5, n - 1)
  {
    hide ReplySize, DataFields, ProcessRaw, FieldValue, GoodHeaderAndFooter, ReplyFields, Parsed, Stored;
    HeaderMeaning(k, raw);
    AcceptedReplies(k, raw);
    ReplyFieldsAre(k);
    var n, reply, fs := |raw|, ProcessRaw(k, raw).value, ReplyFields(k);
    assert Stores(raw, fs[0], reply) && Stores(raw, fs[1], reply) && Stores(raw, fs[2], reply);
    StoresNumber(raw, fs[0], reply);
    StoresNumber(raw, fs[1], reply);
    StoresNumber(raw, fs[2], reply);
    PlainStored(raw, reply, 1, 4);
    PlainStored(raw, reply, 9, 2);
    PlainStored(raw, reply, n - 5, 4);
  }

  // Everything else stays as it is: STX, the code, reserved bytes and ETX, and the data of
  // replies without numbers.
  predicate Kept(k: Kind, n: nat, at: nat)
  {
    || at == 0 || 5 <= at < 9 || at == n - 1
    || ((k.AR00? || k.AR01? || k.AR06?) && (24 <= at < 26 || 44 <= at < 50))
    || (k.XR00? && (24 <= at < 26 || 62 <= at < 101))
    || (!(k.AR00? || k.AR01? || k.AR06? || k.XR00?) && 11 <= at < n - 5)
  }

  lemma FieldsBeside(k: Kind, at: nat)
    requires !k.YR? && at < ReplySize(k) && Kept(k, ReplySize(k), at)
    ensures forall i :: 0 <= i < |DataFields(k)| ==> Disjoint(DataFields(k)[i], Field(at, 1, Plain))
  {
    hide DataFields;
    Sizes();
    OrderedDataFields(k);
    if k.XR00? || k.AR00? || k.AR01? || k.AR06? {
      StateListed(k);
      forall i | 0 <= i < 16 ensures Disjoint(DataFields(k)[i], Field(at, 1, Plain)) {
        assert DataFields(k)[i] == StateList()[i];
      }
      if k.XR00? {
        StatusListed();
      } else {
        ScanListed(k);
        forall i | 19 <= i < |DataFields(k)| ensures Disjoint(DataFields(k)[i], Field(at, 1, Plain)) {
          assert DataFields(k)[19 + (i - 19)] == Field(50 + 4 * (i - 19), 4, Plain);
        }
      }
    } else {
      assert DataFields(k) == [] by { NoFields(k); }
    }
  }

  lemma NoFields(k: Kind)
    requires !(k.AR00? || k.AR01? || k.AR06? || k.XR00?)
    ensures DataFields(k) == []
  {
  }

  lemma Untouched(k: Kind, raw: seq<byte>, at: nat)
    requires !k.YR? && |raw| == ReplySize(k) && ProcessRaw(k, raw).Some? && at < |raw| && Kept(k, |raw|, at)
    ensures ProcessRaw(k, raw).value[at] == raw[at]
  {
    hide ReplySize, DataFields, ProcessRaw, ReplyFields, DecodeRun, Kept;
    var f := Field(at, 1, Plain);
    ReplyLayout(k);
    ReplyFieldsAre(k);
    FieldsBeside(k, at);
    HeadersBeside(k, at);
    forall i | 0 <= i < |ReplyFields(k)| ensures Disjoint(ReplyFields(k)[i], f) {
      if i >= 3 { assert ReplyFields(k)[(i - 3) + 3] == DataFields(k)[i - 3]; }
    }
    AcceptedIsDecoded(k, raw);
    DecodeRunFrame(raw, ReplyFields(k), f);
    assert Slice(ProcessRaw(k, raw).value, f)[0] == Slice(raw, f)[0];
  }

  lemma HeadersBeside(k: Kind, at: nat)
    requires at < ReplySize(k) && Kept(k, ReplySize(k), at)
    ensures Disjoint(CMD_SIZE, Field(at, 1, Plain)) && Disjoint(STATUS, Field(at, 1, Plain))
    ensures Disjoint(CrcField(k), Field(at, 1, Plain))
  {
    hide ReplySize;
    Sizes();
  }

  // ----- the YR worker, by plain offsets -----

  predicate SettledAt(raw: seq<byte>, reply: seq<byte>, from: nat, to: nat)
    requires from <= to <= |raw| == |reply|
  {
    if Spells(raw, from, to) then Held(reply, from, to) == Spelled(raw, from, to)
    else reply[from..to] == raw[from..to]
  }

  lemma SettledPlain(raw: seq<byte>, reply: seq<byte>, from: nat, width: nat)
    requires width > 0 && from + width <= |raw| == |reply| && Settled(raw, Field(from, width, Plain), reply)
    ensures SettledAt(raw, reply, from, from + width)
  {
    hide FieldValue;
    if Parsed(raw, Field(from, width, Plain)).Some? {
      StoresNumber(raw, Field(from, width, Plain), reply);
    }
  }

  predicate YrHeaderSettled(raw: seq<byte>, reply: seq<byte>)
    requires |raw| == |reply| == 4352
  {
    && SettledAt(raw, reply, 1, 5) && SettledAt(raw, reply, 7, 9) && SettledAt(raw, reply, 9, 11)
    && SettledAt(raw, reply, 11, 15) && SettledAt(raw, reply, 15, 19) && SettledAt(raw, reply, 19, 21)
    && SettledAt(raw, reply, 21, 23) && SettledAt(raw, reply, 4347, 4351)
  }

  lemma YrHeader(raw: seq<byte>, reply: seq<byte>)
    requires |raw| == |reply| == 4352
    requires forall j :: 0 <= j < 8 ==> YrHeaderFields()[j].End() <= 4352 && Settled(raw, YrHeaderFields()[j], reply)
    ensures YrHeaderSettled(raw, reply)
  {
    hide Settled, SettledAt;
    var h := YrHeaderFields();
    assert Settled(raw, h[0], reply) && Settled(raw, h[1], reply) && Settled(raw, h[2], reply);
    assert Settled(raw, h[3], reply) && Settled(raw, h[4], reply) && Settled(raw, h[5], reply);
    assert Settled(raw, h[6], reply) && Settled(raw, h[7], reply);
    SettledPlain(raw, reply, h[0].offset, 4);
    SettledPlain(raw, reply, h[1].offset, 2);
    SettledPlain(raw, reply, h[2].offset, 2);
    SettledPlain(raw, reply, h[3].offset, 4);
    SettledPlain(raw, reply, h[4].offset, 4);
    SettledPlain(raw, reply, h[5].offset, 2);
    SettledPlain(raw, reply, h[6].offset, 2);
    SettledPlain(raw, reply, h[7].offset, 4);
  }

  // Size, area type, area number, first and last step, resolution, status and checksum are
  // converted where they are numbers, and the distances up to the first that is none.
  lemma YrOffsets(raw: seq<byte>, k: nat)
    requires |raw| == 4352 && k <= 1081
    requires forall i :: 0 <= i < k ==> Spells(raw, 23 + 4 * i, 27 + 4 * i)
    requires k < 1081 ==> !Spells(raw, 23 + 4 * k, 27 + 4 * k)
    ensures |raw| == ReplySize(YR)
    ensures YrHeaderSettled(raw, ProcessYr(raw))
    ensures forall i :: 0 <= i < k ==> StoredPlain(raw, ProcessYr(raw), 23 + 4 * i, 27 + 4 * i)
    ensures forall i :: k <= i < 1081 ==>
      ProcessYr(raw)[23 + 4 * i..27 + 4 * i] == raw[23 + 4 * i..27 + 4 * i]
  {
    hide ReplySize, ProcessYr, FieldValue, Settled, SettledAt, Elements, StoredPlain, YrHeaderSettled;
    Sizes();
    YrLayout();
    ElementsAt(23, RANGES);
    var e, reply := Elements(23, RANGES), ProcessYr(raw);
    forall i | 0 <= i < k ensures Parsed(raw, e[i]).Some? {
      assert Spells(raw, 23 + 4 * i, 27 + 4 * i);
    }
    YrMeaning(raw, k);
    YrHeader(raw, reply);
    forall i | 0 <= i < k ensures StoredPlain(raw, reply, 23 + 4 * i, 27 + 4 * i) {
      assert Stores(raw, e[i], reply);
      StoresNumber(raw, e[i], reply);
      PlainStored(raw, reply, 23 + 4 * i, 4);
    }
    forall i | k <= i < 1081 ensures reply[23 + 4 * i..27 + 4 * i] == raw[23 + 4 * i..27 + 4 * i] {
      assert Slice(reply, e[i]) == Slice(raw, e[i]);
    }
  }
}
