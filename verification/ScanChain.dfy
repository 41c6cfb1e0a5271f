// From the socket to the scan topic: the frames of a stream, the handlers they run, and the
// messages that the scan callback, which UamROS registers for AR00, AR01 and AR06, publishes.
module ScanChain {
  import opened Wrappers
  import opened HexField
  import opened Protocol
  import opened Decoding
  import opened Worker
  import opened PacketWorker
  import opened Framing
  import opened Replies
  import opened ReplyMeaning
  import ReplyMatching
  import ScanAssembly

  predicate IsScanKind(k: Kind)
  {
    ReplyMatching.IsScanKind(k)
  }

  function RangeCount(k: Kind): nat
  {
    if k.AR06? then RANGES_MULTIECHO else RANGES
  }

  const AREA := Field(12, 2, NextArea)
  const LOCKOUT := Field(17, 1, Flag)

  function Range(i: nat): Field
  {
    Field(50 + 4 * i, 4, Plain)
  }

  function Intensities(reply: seq<byte>): (r: seq<nat>)
    requires |reply| == ReplySize(AR01)
    ensures |r| == RANGES
  {
    seq<nat>(RANGES, i requires 0 <= i < RANGES => Stored(reply, Range(RANGES + i)))
  }

  // What the scan callback sees of a decoded reply.
  function ScanOf(k: Kind, reply: seq<byte>): (scan: ScanAssembly.ScanReply)
    requires IsScanKind(k) && |reply| == ReplySize(k)
    ensures scan.Valid()
  {
    ScanAssembly.ScanReply(
      Stored(reply, AREA), Stored(reply, LOCKOUT) != 0,
      seq(RangeCount(k), i requires 0 <= i < RangeCount(k) => Stored(reply, Range(i))),
      if k.AR01? then Some(Intensities(reply)) else None)
  }

  // ----- what one scan shows -----

  // The readings and the intensities of a message.
  datatype Shown = Shown(ranges: seq<ScanAssembly.Reading>, intensities: seq<nat>)

  datatype View = View(rangeOffset: real, first: int, last: int)

  // The message of a scan, if it makes one.
  ghost function Show(scan: ScanAssembly.ScanReply, v: View): seq<Shown>
  {
    var all := ScanAssembly.AllMeters(v.rangeOffset, scan.ranges);
    if scan.lockout || !ScanAssembly.Publishes(all, v.first, v.last) then []
    else
      [Shown(ScanAssembly.InView(all, v.first, v.last),
             if scan.intensities.Some? then ScanAssembly.InView(scan.intensities.value, v.first, v.last) else [])]
  }

  ghost predicate Sized(calls: seq<Call>)
  {
    forall i :: 0 <= i < |calls| ==> |calls[i].reply| == ReplySize(calls[i].kind)
  }

  // The messages of the scans among the handlers that run.
  ghost function ShowAll(calls: seq<Call>, v: View): seq<Shown>
    requires Sized(calls)
  {
    if calls == [] then []
    else
      var n := |calls| - 1;
      ShowAll(calls[..n], v)
      + if IsScanKind(calls[n].kind) then Show(ScanOf(calls[n].kind, calls[n].reply), v) else []
  }

  function ShownIn(messages: seq<ScanAssembly.LaserScan>): (r: seq<Shown>)
    ensures |r| == |messages|
    ensures forall i :: 0 <= i < |r| ==> r[i] == Shown(messages[i].ranges, messages[i].intensities)
  {
    seq(|messages|, i requires 0 <= i < |messages| => Shown(messages[i].ranges, messages[i].intensities))
  }

  lemma CallSize(packet: seq<byte>)
    requires |packet| == PACKET_SIZE
    ensures var call := Dispatch(packet).call; call.Some? ==> |call.value.reply| == ReplySize(call.value.kind)
  {
    hide ReplySize, Route, ProcessRaw, ProcessYr, Unchecked;
  }

  lemma {:induction false} CallsSized(packets: seq<seq<byte>>)
    requires AllPackets(packets)
    ensures Sized(CallsOf(packets))
  {
    hide Dispatch, ReplySize;
    if packets != [] {
      CallsSized(packets[..|packets| - 1]);
      CallSize(packets[|packets| - 1]);
    }
  }

  lemma ShowNext(calls: seq<Call>, call: Call, v: View)
    requires Sized(calls + [call])
    ensures Sized(calls) && |call.reply| == ReplySize(call.kind)
    ensures ShowAll(calls + [call], v)
         == ShowAll(calls, v) + if IsScanKind(call.kind) then Show(ScanOf(call.kind, call.reply), v) else []
  {
    hide ReplySize, ScanOf, Show, IsScanKind;
    assert Sized(calls) by {
      forall i | 0 <= i < |calls| ensures |calls[i].reply| == ReplySize(calls[i].kind) {
        assert (calls + [call])[i] == calls[i];
      }
    }
    assert (calls + [call])[|calls|] == call;
    assert (calls + [call])[..|calls|] == calls;
  }

  lemma NextCall(packets: seq<seq<byte>>, i: nat)
    requires AllPackets(packets) && i < |packets|
    ensures AllPackets(packets[..i]) && AllPackets(packets[..i + 1])
    ensures var call := Dispatch(packets[i]).call;
      CallsOf(packets[..i + 1]) == CallsOf(packets[..i]) + if call.Some? then [call.value] else []
  {
    hide Dispatch;
    assert packets[..i + 1][..i] == packets[..i];
  }

  lemma ShownJoin(a: seq<ScanAssembly.LaserScan>, b: seq<ScanAssembly.LaserScan>, c: seq<ScanAssembly.LaserScan>)
    requires a <= b <= c
    ensures a <= c && ShownIn(c[|a|..]) == ShownIn(b[|a|..]) + ShownIn(c[|b|..])
  {
  }

  // What one packet adds to the scan topic.
  ghost function ShowPacket(packet: seq<byte>, v: View): seq<Shown>
    requires |packet| == PACKET_SIZE
  {
    CallSize(packet);
    var call := Dispatch(packet).call;
    if call.Some? && IsScanKind(call.value.kind) then Show(ScanOf(call.value.kind, call.value.reply), v) else []
  }

  lemma NextPacket(packets: seq<seq<byte>>, i: nat, v: View)
    requires AllPackets(packets) && i < |packets|
    ensures AllPackets(packets[..i]) && AllPackets(packets[..i + 1])
    ensures Sized(CallsOf(packets[..i])) && Sized(CallsOf(packets[..i + 1]))
    ensures ShowAll(CallsOf(packets[..i + 1]), v) == ShowAll(CallsOf(packets[..i]), v) + ShowPacket(packets[i], v)
  {
    hide Dispatch, ReplySize, ScanOf, Show, IsScanKind, ShowAll;
    NextCall(packets, i);
    CallsSized(packets[..i]);
    CallsSized(packets[..i + 1]);
    var call := Dispatch(packets[i]).call;
    if call.Some? {
      ShowNext(CallsOf(packets[..i]), call.value, v);
    } else {
      assert CallsOf(packets[..i]) + [] == CallsOf(packets[..i]);
    }
  }

  // ----- the code -----

  // The scan callback on one reply.
  method RunCallback(ros: ScanAssembly.UamRos, scan: ScanAssembly.ScanReply, wallTime: real, now: real, ghost v: View)
    requires scan.Valid() && ros.scanParams.Valid() && !ros.Discards(now)
    requires v == View(ros.params.rangeOffset, ros.Window().0, ros.Window().1)
    requires ScanAssembly.IsInt(v.first) && ScanAssembly.IsInt(v.last)
    modifies ros`scanStamp, ros`paramsChanged, ros`published, ros`inArea, ros`overread, ros.scanParams
    ensures ros.scanParams.Valid() && ros.Window() == (v.first, v.last)
    ensures old(ros.overread) ==> ros.overread
    ensures ros.params.referenceArea.None? ==> ros.overread == old(ros.overread)
    ensures !ros.overread ==>
      old(ros.published) <= ros.published && ShownIn(ros.published[|old(ros.published)|..]) == Show(scan, v)
  {
    hide ScanAssembly.Publishes, ScanAssembly.AllMeters, ScanAssembly.InView;
    ros.ScanCallback(scan, wallTime, now);
  }

  // packetCallback on one packet, as far as the scan callback is concerned.
  method RunPacket(ros: ScanAssembly.UamRos, packet: seq<byte>, wallTime: real, now: real, ghost v: View)
    requires |packet| == PACKET_SIZE && ros.scanParams.Valid() && !ros.Discards(now)
    requires v == View(ros.params.rangeOffset, ros.Window().0, ros.Window().1)
    requires ScanAssembly.IsInt(v.first) && ScanAssembly.IsInt(v.last)
    modifies ros`scanStamp, ros`paramsChanged, ros`published, ros`inArea, ros`overread, ros.scanParams
    ensures ros.scanParams.Valid() && ros.Window() == (v.first, v.last)
    ensures old(ros.overread) ==> ros.overread
    ensures ros.params.referenceArea.None? ==> ros.overread == old(ros.overread)
    ensures !ros.overread ==>
      old(ros.published) <= ros.published && ShownIn(ros.published[|old(ros.published)|..]) == ShowPacket(packet, v)
  {
    hide Dispatch, ReplySize, ScanOf, Show;
    CallSize(packet);
    var call := Dispatch(packet).call;
    if call.Some? && IsScanKind(call.value.kind) {
      RunCallback(ros, ScanOf(call.value.kind, call.value.reply), wallTime, now, v);
    }
  }

  // The packets one after the other.
  method RunPackets(ros: ScanAssembly.UamRos, packets: seq<seq<byte>>, wallTimes: seq<real>, nows: seq<real>,
                    ghost v: View)
    requires AllPackets(packets) && |wallTimes| == |nows| == |packets|
    requires ros.scanParams.Valid() && forall i :: 0 <= i < |nows| ==> !ros.Discards(nows[i])
    requires v == View(ros.params.rangeOffset, ros.Window().0, ros.Window().1)
    requires ScanAssembly.IsInt(v.first) && ScanAssembly.IsInt(v.last)
    modifies ros`scanStamp, ros`paramsChanged, ros`published, ros`inArea, ros`overread, ros.scanParams
    ensures Sized(CallsOf(packets))
    ensures ros.params.referenceArea.None? ==> ros.overread == old(ros.overread)
    ensures !ros.overread ==>
      && old(ros.published) <= ros.published
      && ShownIn(ros.published[|old(ros.published)|..]) == ShowAll(CallsOf(packets), v)
  {
    hide ShowPacket, ShowAll, CallsOf, ShownIn, ReplySize;
    NothingShown(v);
    CallsSized(packets);
    assert packets[..0] == [];
    for i := 0 to |packets|
      invariant ros.scanParams.Valid() && ros.Window() == (v.first, v.last)
      invariant AllPackets(packets[..i]) && Sized(CallsOf(packets[..i]))
      invariant ros.params.referenceArea.None? ==> ros.overread == old(ros.overread)
      invariant !ros.overread ==>
        && old(ros.published) <= ros.published
        && ShownIn(ros.published[|old(ros.published)|..]) == ShowAll(CallsOf(packets[..i]), v)
    {
      ghost var before := ros.published;
      NextPacket(packets, i, v);
      RunPacket(ros, packets[i], wallTimes[i], nows[i], v);
      if !ros.overread {
        ShownJoin(old(ros.published), before, ros.published);
      }
    }
    assert packets[..|packets|] == packets;
  }

  lemma NothingShown(v: View)
    ensures ShownIn([]) == [] && CallsOf([]) == [] && ShowAll([], v) == []
  {
  }

  // A connected client that receives known frames, in whatever chunks, of which no YR reply
  // is short: what is published is exactly what the scans among them show, in order.
  method ReceiveScans(client: TcpClient, ros: ScanAssembly.UamRos, ghost frames: seq<seq<byte>>,
                      chunks: seq<seq<byte>>, wallTimes: seq<real>, nows: seq<real>, ghost v: View)
    requires client.Valid() && client.connected && client.stopped && !client.overrun
    requires AllSelfContained(frames) && Flatten(chunks) == Flatten(frames)
    requires |wallTimes| == |nows| == |frames|
    requires ros.scanParams.Valid() && forall i :: 0 <= i < |nows| ==> !ros.Discards(nows[i])
    requires v == View(ros.params.rangeOffset, ros.Window().0, ros.Window().1)
    requires ScanAssembly.IsInt(v.first) && ScanAssembly.IsInt(v.last)
    modifies client, client.receiveBuffer.raw
    modifies ros`scanStamp, ros`paramsChanged, ros`published, ros`inArea, ros`overread, ros.scanParams
    ensures client.Valid() && !client.overrun
    ensures Sized(FrameCalls(frames))
    ensures ros.params.referenceArea.None? ==> ros.overread == old(ros.overread)
    ensures !ros.overread ==>
      && old(ros.published) <= ros.published
      && ShownIn(ros.published[|old(ros.published)|..]) == ShowAll(FrameCalls(frames), v)
  {
    hide ShowAll, CallsOf, FrameCalls, ShownIn, ReplySize, TcpClient.Valid, SelfContained, KnownFrame;
    assert forall i :: 0 <= i < |frames| ==> KnownFrame(frames[i]);
    var before := |client.packets|;
    ReceiveFrames(client, frames, chunks);
    RunPackets(ros, client.packets[before..], wallTimes, nows, v);
  }

  // ----- what a device prints is what is published -----

  // The number that data field i of a printed reply spells.
  function Number(k: Kind, data: seq<byte>, i: nat): nat
    requires HEADER_SIZE + |data| + FOOTER_SIZE == ReplySize(k) && i < |DataFields(k)|
    requires FieldValue(DataSlice(k, data, i)).Some?
  {
    FieldValue(DataSlice(k, data, i)).value
  }

  ghost predicate AllNumbers(k: Kind, data: seq<byte>)
  {
    && (k.AR00? || k.AR01? || k.AR06?) && HEADER_SIZE + |data| + FOOTER_SIZE == ReplySize(k)
    && forall i :: 0 <= i < |DataFields(k)| ==> FieldValue(DataSlice(k, data, i)).Some?
  }

  lemma FieldPlaces(k: Kind)
    requires k.AR00? || k.AR01? || k.AR06?
    ensures |DataFields(k)| == 19 + RangeCount(k) + if k.AR01? then RANGES else 0
    ensures DataFields(k)[1] == AREA && DataFields(k)[4] == LOCKOUT
    ensures forall i :: 0 <= i < |DataFields(k)| - 19 ==>
      DataFields(k)[19 + i] == Range(i) && Range(i).End() <= ReplySize(k)
    ensures forall i :: 0 <= i < |DataFields(k)| ==> Roomy(DataFields(k)[i])
  {
  }

  // The scan of a printed reply, straight from its data.
  ghost function PrintedScan(k: Kind, data: seq<byte>): ScanAssembly.ScanReply
    requires AllNumbers(k, data)
  {
    FieldPlaces(k);
    ScanAssembly.ScanReply(
      Number(k, data, 1) + 1, Number(k, data, 4) != 0,
      seq<nat>(RangeCount(k), i requires 0 <= i < RangeCount(k) => Number(k, data, 19 + i)),
      if k.AR01? then Some(seq<nat>(RANGES, i requires 0 <= i < RANGES => Number(k, data, 19 + RANGES + i))) else None)
  }

  lemma StoredNumber(k: Kind, data: seq<byte>, i: nat)
    requires AllNumbers(k, data) && i < |DataFields(k)|
    ensures var frame := PrintStatus(k, 0, data);
      && |frame| == ReplySize(k) && ProcessRaw(k, frame).Some? && DataFields(k)[i].End() <= ReplySize(k)
      && Stored(ProcessRaw(k, frame).value, DataFields(k)[i])
         == Adjusted(DataFields(k)[i].adjust, Number(k, data, i))
  {
    hide PrintStatus, FieldValue, ReplySize, DataFields, ProcessRaw, ReplyFields, Parsed, DataSlice, Stored, Roomy;
    var frame := PrintStatus(k, 0, data);
    PrintedStatus(k, 0, data);
    PrintedAccepted(k, 0, data);
    PrintedField(k, 0, data, i);
    AcceptedReplies(k, frame);
    ReplyFieldsAre(k);
    FieldPlaces(k);
    assert Stores(frame, ReplyFields(k)[i + 3], ProcessRaw(k, frame).value);
    StoresNumber(frame, DataFields(k)[i], ProcessRaw(k, frame).value);
  }

  lemma PrintedIsScan(k: Kind, data: seq<byte>)
    requires AllNumbers(k, data)
    ensures var frame := PrintStatus(k, 0, data);
      && |frame| == ReplySize(k) && ProcessRaw(k, frame).Some?
      && ScanOf(k, ProcessRaw(k, frame).value) == PrintedScan(k, data)
  {
    hide PrintStatus, FieldValue, ReplySize, DataFields, ProcessRaw, DataSlice, Stored, Number;
    FieldPlaces(k);
    StoredNumber(k, data, 1);
    StoredNumber(k, data, 4);
    var reply := ProcessRaw(k, PrintStatus(k, 0, data)).value;
    forall i | 0 <= i < |DataFields(k)| - 19 ensures Stored(reply, Range(i)) == Number(k, data, 19 + i) {
      StoredNumber(k, data, 19 + i);
    }
    var s, t := ScanOf(k, reply), PrintedScan(k, data);
    assert s.ranges == t.ranges;
    assert k.AR01? ==> s.intensities.value == t.intensities.value;
  }

  lemma ScanHeader(k: Kind, frame: seq<byte>)
    requires (k.AR00? || k.AR01? || k.AR06?) && |frame| >= HEADER_SIZE && HasCode(frame, k)
    ensures KnownHeader(frame) && !HasCode(frame, YR)
  {
    hide ReplySize;
    assert frame[5..9][..2] == frame[5..7];
    assert Code(k) == frame[5..9];
    assert frame[5..7] == [65, 82];
    assert frame[5..9][0] == 65;
  }

  lemma PrintedFrame(k: Kind, data: seq<byte>)
    requires AllNumbers(k, data)
    ensures var frame := PrintStatus(k, 0, data);
      && |frame| == ReplySize(k) && KnownFrame(frame) && SelfContained(frame)
      && ProcessRaw(k, frame).Some?
      && FrameOutcome(frame) == Outcome(true, Some(Call(k, ProcessRaw(k, frame).value)))
  {
    hide PrintStatus, FieldValue, ReplySize, DataFields, ProcessRaw, DataSlice, FrameOutcome, Parsed;
    hide HasCode, KnownHeader, Code;
    var frame := PrintStatus(k, 0, data);
    PrintedStatus(k, 0, data);
    PrintedAccepted(k, 0, data);
    ReplyMatching.ReplyOutcome(k, frame);
    ScanHeader(k, frame);
  }

  // A scan to print.
  datatype Job = Job(kind: Kind, data: seq<byte>)

  ghost predicate AllPrintable(jobs: seq<Job>)
  {
    forall i :: 0 <= i < |jobs| ==> AllNumbers(jobs[i].kind, jobs[i].data)
  }

  ghost function PrintAll(jobs: seq<Job>): (frames: seq<seq<byte>>)
    requires AllPrintable(jobs)
    ensures |frames| == |jobs|
  {
    if jobs == [] then []
    else
      var job := jobs[|jobs| - 1];
      PrintAll(jobs[..|jobs| - 1]) + [PrintStatus(job.kind, 0, job.data)]
  }

  // The messages of printed scans, straight from their data.
  ghost function ShowJobs(jobs: seq<Job>, v: View): seq<Shown>
    requires AllPrintable(jobs)
  {
    if jobs == [] then []
    else ShowJobs(jobs[..|jobs| - 1], v) + Show(PrintedScan(jobs[|jobs| - 1].kind, jobs[|jobs| - 1].data), v)
  }

  lemma NextFrame(frames: seq<seq<byte>>, frame: seq<byte>, call: Call)
    requires AllSelfContained(frames) && KnownFrame(frame) && SelfContained(frame)
    requires FrameOutcome(frame).call == Some(call)
    ensures AllSelfContained(frames + [frame]) && FrameCalls(frames + [frame]) == FrameCalls(frames) + [call]
  {
    hide FrameOutcome, KnownFrame, SelfContained;
    assert (frames + [frame])[..|frames|] == frames;
  }

  lemma SizedNext(calls: seq<Call>, call: Call)
    requires Sized(calls) && |call.reply| == ReplySize(call.kind)
    ensures Sized(calls + [call])
  {
    hide ReplySize;
  }

  lemma {:induction false} JobsShown(jobs: seq<Job>, v: View)
    requires AllPrintable(jobs)
    ensures AllSelfContained(PrintAll(jobs)) && Sized(FrameCalls(PrintAll(jobs)))
    ensures ShowAll(FrameCalls(PrintAll(jobs)), v) == ShowJobs(jobs, v)
  {
    hide AllNumbers, PrintStatus, FrameOutcome, KnownFrame, SelfContained, Show, ScanOf, PrintedScan, Sized;
    hide IsScanKind, ReplySize;
    if jobs == [] {
      NoJobs(v);
    } else {
      var n := |jobs| - 1;
      var k, data := jobs[n].kind, jobs[n].data;
      JobsShown(jobs[..n], v);
      var call := PrintedCall(k, data);
      NextFrame(PrintAll(jobs[..n]), PrintStatus(k, 0, data), call);
      SizedNext(FrameCalls(PrintAll(jobs[..n])), call);
      ShowNext(FrameCalls(PrintAll(jobs[..n])), call, v);
    }
  }

  // The handler that a printed scan runs, and what it sees.
  lemma PrintedCall(k: Kind, data: seq<byte>) returns (call: Call)
    requires AllNumbers(k, data)
    ensures !k.YR? && HEADER_SIZE + |data| + FOOTER_SIZE == ReplySize(k)
    ensures var frame := PrintStatus(k, 0, data);
      KnownFrame(frame) && SelfContained(frame) && |frame| <= PACKET_SIZE && FrameOutcome(frame).call == Some(call)
    ensures call.kind == k && IsScanKind(k) && |call.reply| == ReplySize(k)
    ensures ScanOf(k, call.reply) == PrintedScan(k, data)
  {
    hide PrintStatus, FieldValue, ReplySize, DataFields, ProcessRaw, DataSlice, FrameOutcome, KnownFrame, SelfContained;
    hide PrintedScan, ScanOf;
    PrintedFrame(k, data);
    PrintedIsScan(k, data);
    call := Call(k, ProcessRaw(k, PrintStatus(k, 0, data)).value);
  }

  lemma NoJobs(v: View)
    ensures PrintAll([]) == [] && FrameCalls([]) == [] && Sized([]) && ShowAll([], v) == []
  {
  }

  // ----- what is published, by the bytes of the frames -----

  // An accepted scan, by its length, its text, its checksum and its digits.
  ghost predicate IsScanFrame(frame: seq<byte>)
    requires |frame| >= 11
  {
    && GoodHeaderAndFooter(frame)
    && ((|frame| == 4379 && (Says(frame, "AR00") || Says(frame, "AR02")) && ScanSpells(frame, 1081))
        || (|frame| == 8703 && (Says(frame, "AR01") || Says(frame, "AR04")) && ScanSpells(frame, 2162))
        || (|frame| == 8699 && (Says(frame, "AR06") || Says(frame, "AR07")) && ScanSpells(frame, 2161)))
  }

  // How many readings it has; the other numbers of an AR01 scan are its intensities.
  function ReadingCount(frame: seq<byte>): nat
  {
    if |frame| == 8699 then 2161 else 1081
  }

  // The number spelled by group i of four digits.
  function Group(frame: seq<byte>, i: nat): nat
    requires SpellsReading(frame, i)
  {
    Spelled(frame, 50 + 4 * i, 54 + 4 * i)
  }

  // A scan that is not locked out and has a distance in the window.
  ghost predicate ShowsUp(frame: seq<byte>, v: View)
    requires |frame| >= 11
  {
    && IsScanFrame(frame) && SpellsFlag(frame, 17) && Spelled(frame, 17, 18) == 0
    && 0 <= v.first <= v.last < ReadingCount(frame)
    && exists i :: v.first <= i <= v.last && SpellsReading(frame, i) && 0 < Group(frame, i) < 0xFFFC
  }

  ghost predicate ShowsReading(reading: ScanAssembly.Reading, frame: seq<byte>, i: int, v: View)
  {
    && i >= 0 && SpellsReading(frame, i)
    && (reading.Some? <==> 0 < Group(frame, i) < 0xFFFC)
    && (reading.Some? ==> 1000.0 * (reading.value - v.rangeOffset) == Group(frame, i) as real)
  }

  ghost predicate ShowsIntensity(intensity: nat, frame: seq<byte>, i: int)
  {
    i >= 0 && SpellsReading(frame, 1081 + i) && intensity == Group(frame, 1081 + i)
  }

  // A message that says what the digits of a frame say from first to last.
  ghost predicate SaysFrame(shown: Shown, frame: seq<byte>, v: View)
  {
    && |shown.ranges| == v.last - v.first + 1
    && (forall j :: 0 <= j < |shown.ranges| ==> ShowsReading(shown.ranges[j], frame, v.first + j, v))
    && (|frame| != 8703 ==> shown.intensities == [])
    && (|frame| == 8703 ==> |shown.intensities| == v.last - v.first + 1)
    && (|frame| == 8703 ==>
          forall j :: 0 <= j < |shown.intensities| ==> ShowsIntensity(shown.intensities[j], frame, v.first + j))
  }

  // The frames that show up, in order.
  ghost predicate AreShown(chosen: seq<nat>, frames: seq<seq<byte>>, v: View)
  {
    && (forall j, k :: 0 <= j < k < |chosen| ==> chosen[j] < chosen[k])
    && forall i: nat :: i in chosen <==> i < |frames| && |frames[i]| >= 11 && ShowsUp(frames[i], v)
  }

  ghost predicate SayFrames(shown: seq<Shown>, chosen: seq<nat>, frames: seq<seq<byte>>, v: View)
  {
    && |shown| == |chosen|
    && forall j :: 0 <= j < |chosen| ==> chosen[j] < |frames| && SaysFrame(shown[j], frames[chosen[j]], v)
  }

  lemma NotFlag(raw: seq<byte>, reply: seq<byte>, at: nat)
    requires StoredFlag(raw, reply, at)
    ensures Stored(reply, Field(at, 1, Flag)) == 0 <==> Spelled(raw, at, at + 1) == 0
  {
    hide FieldValue;
    assert reply[at..at + 1] == [reply[at]];
    assert Host([reply[at]]) == reply[at] by { assert [reply[at]][1..] == []; }
  }

  // What the scan callback sees of a frame, by the digits.
  ghost predicate Sees(scan: ScanAssembly.ScanReply, frame: seq<byte>)
  {
    && Spells(frame, 12, 14) && scan.areaNumber == Spelled(frame, 12, 14) + 1
    && SpellsFlag(frame, 17) && (scan.lockout <==> Spelled(frame, 17, 18) != 0)
    && |scan.ranges| == ReadingCount(frame)
    && (forall i :: 0 <= i < |scan.ranges| ==> SpellsReading(frame, i) && scan.ranges[i] == Group(frame, i))
    && (scan.intensities.Some? <==> |frame| == 8703)
    && (scan.intensities.Some? ==>
          && |scan.intensities.value| == 1081
          && forall i :: 0 <= i < 1081 ==> ShowsIntensity(scan.intensities.value[i], frame, i))
  }

  lemma ScanMeans(k: Kind, frame: seq<byte>)
    requires (k.AR00? || k.AR01? || k.AR06?) && |frame| == ReplySize(k) && ProcessRaw(k, frame).Some?
    ensures IsScanKind(k) && |ProcessRaw(k, frame).value| == ReplySize(k)
    ensures Sees(ScanOf(k, ProcessRaw(k, frame).value), frame)
  {
    hide ReplySize, ProcessRaw, FieldValue, Spelled, GoodHeaderAndFooter, SpellsFlag;
    Sizes();
    ScanMeaning(k, frame);
    var reply := ProcessRaw(k, frame).value;
    assert StoredFlag(frame, reply, 17);
    NotFlag(frame, reply, 17);
    forall i | 0 <= i < NumberCount(k)
      ensures SpellsReading(frame, i) && Stored(reply, Range(i)) == Group(frame, i)
    {
      assert StoredReading(frame, reply, i);
      assert SpellsReading(frame, i);
    }
  }

  lemma ShowsUpIs(scan: ScanAssembly.ScanReply, frame: seq<byte>, v: View)
    requires |frame| >= 11 && IsScanFrame(frame) && Sees(scan, frame)
    ensures ShowsUp(frame, v) <==> !scan.lockout && ScanAssembly.HasDistance(scan, v.first, v.last)
  {
    hide IsScanFrame, SpellsReading, SpellsFlag, Group, Spelled;
  }

  lemma SaysFrameIs(scan: ScanAssembly.ScanReply, frame: seq<byte>, v: View, ranges: seq<ScanAssembly.Reading>,
                    intensities: seq<nat>)
    requires Sees(scan, frame)
    requires ScanAssembly.ReadingsShown(ranges, scan.ranges, v.first, v.last, v.rangeOffset)
    requires ScanAssembly.IntensitiesShown(intensities, scan.intensities, v.first, v.last)
    ensures SaysFrame(Shown(ranges, intensities), frame, v)
  {
    hide SpellsReading, SpellsFlag, Group, Spelled, ShowsIntensity;
    forall j | 0 <= j < |ranges| ensures ShowsReading(ranges[j], frame, v.first + j, v) {
      assert ScanAssembly.Measures(ranges[j], scan.ranges[v.first + j], v.rangeOffset);
    }
  }

  // A scan that its worker accepts makes a message exactly if it shows up.
  lemma ScanShows(scan: ScanAssembly.ScanReply, frame: seq<byte>, v: View)
    requires |frame| >= 11 && IsScanFrame(frame) && Sees(scan, frame)
    ensures var shown := Show(scan, v);
      if ShowsUp(frame, v) then |shown| == 1 && SaysFrame(shown[0], frame, v) else shown == []
  {
    hide IsScanFrame, Sees, ShowsUp, SaysFrame;
    hide ScanAssembly.Publishes, ScanAssembly.AllMeters, ScanAssembly.Measures, ScanAssembly.InView;
    hide ScanAssembly.ReadingsShown;
    var all := ScanAssembly.AllMeters(v.rangeOffset, scan.ranges);
    ScanAssembly.PublishesMeaning(scan, v.rangeOffset, v.first, v.last);
    ShowsUpIs(scan, frame, v);
    if ShowsUp(frame, v) {
      ScanAssembly.InViewMeaning(scan.ranges, v.rangeOffset, v.first, v.last);
      var intensities :=
        if scan.intensities.Some? then ScanAssembly.InView(scan.intensities.value, v.first, v.last) else [];
      if scan.intensities.Some? {
        SameLengths(scan, frame);
        ScanAssembly.InViewIs(scan.intensities.value, v.first, v.last);
      }
      SaysFrameIs(scan, frame, v, ScanAssembly.InView(all, v.first, v.last), intensities);
    }
  }

  lemma SameLengths(scan: ScanAssembly.ScanReply, frame: seq<byte>)
    requires Sees(scan, frame) && scan.intensities.Some?
    ensures |scan.intensities.value| == |scan.ranges|
  {
    hide SpellsReading, SpellsFlag, Group, Spelled, ShowsIntensity;
  }

  // What a frame adds to the scan topic.
  ghost function ShowFrame(frame: seq<byte>, v: View): seq<Shown>
    requires |frame| <= PACKET_SIZE
  {
    ShowPacket(frame + seq(PACKET_SIZE - |frame|, i => 0), v)
  }

  // The texts and lengths of scans tell their workers apart.
  lemma ScanTexts(frame: seq<byte>, k: Kind)
    requires |frame| >= 11 && (k.AR00? || k.AR01? || k.AR06?) && GoesTo(frame, k)
    ensures IsScanFrame(frame) <==>
      |frame| == ReplySize(k) && GoodHeaderAndFooter(frame) && ScanSpells(frame, NumberCount(k))
  {
    hide GoodHeaderAndFooter, ScanSpells, ReplySize, Says;
    Sizes();
    LastCharacter(frame, "AR00");
    LastCharacter(frame, "AR02");
    LastCharacter(frame, "AR01");
    LastCharacter(frame, "AR04");
    LastCharacter(frame, "AR06");
    LastCharacter(frame, "AR07");
  }

  lemma LastCharacter(frame: seq<byte>, code: string)
    requires |frame| >= 11 && |code| == 4
    ensures Says(frame, code) ==> frame[8] == code[3] as int
  {
    var at := 3;
    assert frame[5 + at] == frame[8];
  }

  lemma ScanFrameShows(frame: seq<byte>, k: Kind, v: View)
    requires WellSized(frame) && (k.AR00? || k.AR01? || k.AR06?) && GoesTo(frame, k)
    ensures if ShowsUp(frame, v) then |ShowFrame(frame, v)| == 1 && SaysFrame(ShowFrame(frame, v)[0], frame, v)
            else ShowFrame(frame, v) == []
  {
    hide GoodHeaderAndFooter, ScanSpells, ReplySize, GoesTo, IsScanFrame, Sees, SaysFrame, Parsed, ScanOf, Show;
    hide ProcessRaw, Dispatch;
    ScanTexts(frame, k);
    Handled(frame, k);
    if |frame| == ReplySize(k) {
      ScanAccepted(k, frame);
      if ProcessRaw(k, frame).Some? {
        ScanMeans(k, frame);
        ScanShows(ScanOf(k, ProcessRaw(k, frame).value), frame, v);
      }
    }
  }

  lemma OtherFrameShows(frame: seq<byte>, v: View)
    requires WellSized(frame) && !LooksLikeScan(frame)
    ensures ShowFrame(frame, v) == [] && !ShowsUp(frame, v)
  {
    hide GoodHeaderAndFooter, ScanSpells, ReplySize, GoesTo, Says, Parsed, ScanOf, Show, Route;
    hide Dispatch;
    if FrameOutcome(frame).call.Some? {
      var k := FrameOutcome(frame).call.value.kind;
      CallIsRouted(frame);
      RoutedTo(frame, k);
      ScanWorkers(frame, k);
      assert !IsScanKind(k);
    }
  }

  lemma FrameShows(frame: seq<byte>, v: View)
    requires WellSized(frame)
    ensures if ShowsUp(frame, v) then |ShowFrame(frame, v)| == 1 && SaysFrame(ShowFrame(frame, v)[0], frame, v)
            else ShowFrame(frame, v) == []
  {
    hide Says, ShowsUp, ShowFrame, SaysFrame, Parsed;
    if !LooksLikeScan(frame) {
      OtherFrameShows(frame, v);
    }
    if GoesTo(frame, AR00) {
      ScanFrameShows(frame, AR00, v);
    }
    if GoesTo(frame, AR01) {
      ScanFrameShows(frame, AR01, v);
    }
    if GoesTo(frame, AR06) {
      ScanFrameShows(frame, AR06, v);
    }
  }

  lemma FrameCallNext(frames: seq<seq<byte>>, v: View)
    requires frames != [] && AllSelfContained(frames)
    requires Sized(FrameCalls(frames)) && Sized(FrameCalls(frames[..|frames| - 1]))
    ensures var n := |frames| - 1;
      && |frames[n]| <= PACKET_SIZE
      && ShowAll(FrameCalls(frames), v) == ShowAll(FrameCalls(frames[..n]), v) + ShowFrame(frames[n], v)
  {
    hide Dispatch, ReplySize, ScanOf, Show, IsScanKind, ShowAll, Parsed;
    var n := |frames| - 1;
    var call := FrameOutcome(frames[n]).call;
    assert KnownFrame(frames[n]);
    if call.Some? {
      ShowNext(FrameCalls(frames[..n]), call.value, v);
    } else {
      assert FrameCalls(frames[..n]) + [] == FrameCalls(frames[..n]);
    }
  }

  lemma {:induction false} FramesSized(frames: seq<seq<byte>>)
    requires AllSelfContained(frames)
    ensures Sized(FrameCalls(frames))
  {
    hide Dispatch, ReplySize, Parsed, SelfContained;
    if frames != [] {
      var n := |frames| - 1;
      FramesSized(frames[..n]);
      assert KnownFrame(frames[n]);
      CallSize(frames[n] + seq(PACKET_SIZE - |frames[n]|, i => 0));
    }
  }

  lemma {:induction false} FramesShown(frames: seq<seq<byte>>, v: View) returns (chosen: seq<nat>)
    requires AllSelfContained(frames)
    ensures Sized(FrameCalls(frames)) && AreShown(chosen, frames, v)
    ensures SayFrames(ShowAll(FrameCalls(frames), v), chosen, frames, v)
  {
    hide ReplySize, FrameOutcome, KnownFrame, SelfContained, ShowsUp, ShowAll, SaysFrame, ShowFrame, Sized;
    FramesSized(frames);
    if frames == [] {
      NoJobs(v);
      chosen := [];
    } else {
      var n := |frames| - 1;
      chosen := FramesShown(frames[..n], v);
      FramesSized(frames[..n]);
      FrameCallNext(frames, v);
      Frame11(frames[n]);
      FrameShows(frames[n], v);
      ChosenNext(frames, v, chosen, ShowAll(FrameCalls(frames[..n]), v), ShowFrame(frames[n], v));
      if ShowsUp(frames[n], v) {
        chosen := chosen + [n];
      }
    }
  }

  lemma Frame11(frame: seq<byte>)
    requires KnownFrame(frame)
    ensures WellSized(frame) && 11 <= |frame| <= PACKET_SIZE
  {
    hide Parsed;
  }

  lemma ChosenNext(frames: seq<seq<byte>>, v: View, chosen: seq<nat>, shown: seq<Shown>, last: seq<Shown>)
    requires frames != [] && |frames[|frames| - 1]| >= 11
    requires var n := |frames| - 1; AreShown(chosen, frames[..n], v) && SayFrames(shown, chosen, frames[..n], v)
    requires var frame := frames[|frames| - 1];
      if ShowsUp(frame, v) then |last| == 1 && SaysFrame(last[0], frame, v) else last == []
    ensures var more := if ShowsUp(frames[|frames| - 1], v) then chosen + [|frames| - 1] else chosen;
      AreShown(more, frames, v) && SayFrames(shown + last, more, frames, v)
  {
    hide ShowsUp, SaysFrame;
    var n := |frames| - 1;
    var more := if ShowsUp(frames[n], v) then chosen + [n] else chosen;
    forall i: nat ensures i in more <==> i < |frames| && |frames[i]| >= 11 && ShowsUp(frames[i], v) {
      assert i in more <==> i in chosen || (ShowsUp(frames[n], v) && i == n);
      if i < n {
        assert frames[..n][i] == frames[i];
      }
    }
    forall j | 0 <= j < |chosen| ensures chosen[j] < n && frames[..n][chosen[j]] == frames[chosen[j]] {
      assert chosen[j] in chosen;
    }
  }

  // The whole way: known frames of any kind and any content, in whatever chunks. What is
  // published are the accepted scans that are not locked out and have a distance in the
  // window, one message each, in the order of the stream, and each message says what the
  // digits of its frame say. shown lists the frames that are published.
  method PublishFrames(client: TcpClient, ros: ScanAssembly.UamRos, ghost frames: seq<seq<byte>>,
                       chunks: seq<seq<byte>>, wallTimes: seq<real>, nows: seq<real>, ghost v: View)
    returns (ghost shown: seq<nat>)
    requires client.Valid() && client.connected && client.stopped && !client.overrun
    requires AllSelfContained(frames) && Flatten(chunks) == Flatten(frames)
    requires |wallTimes| == |nows| == |frames|
    requires ros.scanParams.Valid() && forall i :: 0 <= i < |nows| ==> !ros.Discards(nows[i])
    requires v == View(ros.params.rangeOffset, ros.Window().0, ros.Window().1)
    requires ScanAssembly.IsInt(v.first) && ScanAssembly.IsInt(v.last)
    modifies client, client.receiveBuffer.raw
    modifies ros`scanStamp, ros`paramsChanged, ros`published, ros`inArea, ros`overread, ros.scanParams
    ensures client.Valid() && !client.overrun
    ensures ros.params.referenceArea.None? ==> ros.overread == old(ros.overread)
    ensures AreShown(shown, frames, v)
    ensures !ros.overread ==>
      && old(ros.published) <= ros.published
      && SayFrames(ShownIn(ros.published[|old(ros.published)|..]), shown, frames, v)
  {
    hide ShowAll, FrameCalls, ShownIn, TcpClient.Valid, SayFrames, AreShown, Sized;
    shown := FramesShown(frames, v);
    ReceiveScans(client, ros, frames, chunks, wallTimes, nows, v);
  }

  // Scans that a device prints, status 0 and any data that are numbers, received in
  // whatever chunks, are published exactly as their data read: the numbers of the window in
  // metres, one message for each scan that is not locked out and has a finite one.
  method PublishScans(client: TcpClient, ros: ScanAssembly.UamRos, ghost jobs: seq<Job>, chunks: seq<seq<byte>>,
                      wallTimes: seq<real>, nows: seq<real>, ghost v: View)
    returns (ghost shown: seq<nat>)
    requires client.Valid() && client.connected && client.stopped && !client.overrun
    requires AllPrintable(jobs) && Flatten(chunks) == Flatten(PrintAll(jobs))
    requires |wallTimes| == |nows| == |jobs|
    requires ros.scanParams.Valid() && forall i :: 0 <= i < |nows| ==> !ros.Discards(nows[i])
    requires v == View(ros.params.rangeOffset, ros.Window().0, ros.Window().1)
    requires ScanAssembly.IsInt(v.first) && ScanAssembly.IsInt(v.last)
    modifies client, client.receiveBuffer.raw
    modifies ros`scanStamp, ros`paramsChanged, ros`published, ros`inArea, ros`overread, ros.scanParams
    ensures client.Valid() && !client.overrun
    ensures ros.params.referenceArea.None? ==> ros.overread == old(ros.overread)
    ensures AreShown(shown, PrintAll(jobs), v)
    ensures !ros.overread ==>
      && old(ros.published) <= ros.published
      && ShownIn(ros.published[|old(ros.published)|..]) == ShowJobs(jobs, v)
      && SayFrames(ShowJobs(jobs, v), shown, PrintAll(jobs), v)
  {
    hide ShowAll, ShowJobs, PrintAll, FrameCalls, ShownIn, TcpClient.Valid, SayFrames, AreShown, Sized;
    JobsShown(jobs, v);
    shown := FramesShown(PrintAll(jobs), v);
    ReceiveScans(client, ros, PrintAll(jobs), chunks, wallTimes, nows, v);
  }
}
