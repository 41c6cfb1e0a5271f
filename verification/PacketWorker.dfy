// UamPacketWorker: one packet of the shared union buffer goes to one of thirteen workers.
module PacketWorker {
  import opened Wrappers
  import opened Protocol
  import opened Decoding
  import opened Worker

  // The union of all reply structures, viewed through any of them.
  class ShapeShifterPacket {
    const raw: array<byte>

    ghost predicate Valid()
      reads this
    {
      raw.Length == PACKET_SIZE
    }

    constructor ()
      ensures Valid() && fresh(raw)
    {
      raw := new byte[PACKET_SIZE](i => 0);
    }

    // get<T>()
    function Get(k: Kind): (reply: seq<byte>)
      requires Valid()
      reads this, raw
      ensures |reply| == ReplySize(k)
    {
      raw[..ReplySize(k)]
    }

    // set<T>(message): the bytes beyond the message keep their value.
    method Set(k: Kind, message: seq<byte>)
      requires Valid() && |message| == ReplySize(k)
      modifies raw
      ensures raw[..] == message + old(raw[ReplySize(k)..])
      ensures Get(k) == message
    {
      for i := 0 to |message|
        invariant forall j :: 0 <= j < i ==> raw[j] == message[j]
        invariant forall j :: i <= j < raw.Length ==> raw[j] == old(raw[j])
      {
        raw[i] := message[i];
      }
    }
  }

  // ----- YRWorker -----

  // decodeHeaderAndfooter of the YR worker.
  function YrHeaderFields(): seq<Field>
  {
    [CMD_SIZE, Field(7, 2, Plain), Field(9, 2, Plain), Field(11, 4, Plain), Field(15, 4, Plain),
     Field(19, 2, Plain), Field(21, 2, Plain), Field(4347, 4, Plain)]
  }

  // decodeField calls whose results nobody looks at.
  function DecodeEach(bytes: seq<byte>, fields: seq<Field>): (r: seq<byte>)
    requires Inside(fields, 0, |bytes|)
    ensures |r| == |bytes|
  {
    if fields == [] then bytes
    else DecodeOne(DecodeEach(bytes, fields[..|fields| - 1]), fields[|fields| - 1]).bytes
  }

  // process: no check of size, checksum or status, and the area data stops being decoded
  // at the first distance that spells no number.
  function ProcessYr(raw: seq<byte>): (reply: seq<byte>)
    requires |raw| == ReplySize(YR)
    ensures |reply| == |raw|
  {
    DecodeRun(DecodeEach(raw, YrHeaderFields()), Elements(23, RANGES)).bytes
  }

  // r holds the number that bytes spells in f, or what was there if it spells none.
  ghost predicate Settled(bytes: seq<byte>, f: Field, r: seq<byte>)
    requires f.End() <= |bytes| && f.End() <= |r|
  {
    if Parsed(bytes, f).Some? then Stores(bytes, f, r) else Slice(r, f) == Slice(bytes, f)
  }

  lemma {:induction false} DecodeEachMeaning(bytes: seq<byte>, fields: seq<Field>)
    requires Inside(fields, 0, |bytes|) && Separated(fields)
    ensures forall i :: 0 <= i < |fields| ==> Settled(bytes, fields[i], DecodeEach(bytes, fields))
  {
    hide DecodeOne, Parsed, Slice, Settled;
    if fields != [] {
      var n := |fields| - 1;
      var f, before, after := fields[n], DecodeEach(bytes, fields[..n]), DecodeEach(bytes, fields);
      DecodeEachMeaning(bytes, fields[..n]);
      DecodeEachFrame(bytes, fields[..n], f);
      SettledOne(bytes, before, f);
      forall i | 0 <= i < n ensures Settled(bytes, fields[i], after) {
        assert Settled(bytes, fields[..n][i], before);
        DecodeOneFrame(before, f, fields[i]);
        SettledFrame(bytes, fields[i], before, after);
      }
    }
  }

  lemma SettledOne(bytes: seq<byte>, now: seq<byte>, f: Field)
    requires f.End() <= |bytes| == |now| && Slice(now, f) == Slice(bytes, f)
    ensures Settled(bytes, f, DecodeOne(now, f).bytes)
  {
  }

  lemma SettledFrame(bytes: seq<byte>, f: Field, r: seq<byte>, s: seq<byte>)
    requires f.End() <= |bytes| && f.End() <= |r| && f.End() <= |s|
    requires Settled(bytes, f, r) && Slice(r, f) == Slice(s, f)
    ensures Settled(bytes, f, s)
  {
  }

  lemma RunExtends(bytes: seq<byte>, fields: seq<Field>, f: Field)
    requires Inside(fields, 0, |bytes|) && f.End() <= |bytes|
    ensures Inside(fields + [f], 0, |bytes|)
    ensures var d := DecodeRun(bytes, fields);
      DecodeRun(bytes, fields + [f]) == if d.ok then DecodeOne(d.bytes, f) else d
  {
  }

  lemma Prefix(fields: seq<Field>, k: nat, n: nat)
    requires Inside(fields, 0, n) && Separated(fields) && k < |fields|
    ensures fields[k].End() <= n && Inside(fields[..k], 0, n) && Inside(fields[..k + 1], 0, n)
    ensures forall i :: 0 <= i < k ==> Disjoint(fields[..k][i], fields[k])
  {
  }

  lemma DecodeFails(bytes: seq<byte>, fields: seq<Field>, k: nat)
    requires Inside(fields, 0, |bytes|) && Separated(fields) && k < |fields|
    requires DecodeRun(bytes, fields[..k]).ok && Parsed(bytes, fields[k]).None?
    ensures DecodeRun(bytes, fields).bytes == DecodeRun(bytes, fields[..k]).bytes
  {
    hide Parsed, Slice, DecodeRun, Separated, Inside, Disjoint;
    Prefix(fields, k, |bytes|);
    var d := DecodeRun(bytes, fields[..k]);
    DecodeRunFrame(bytes, fields[..k], fields[k]);
    ParsedSlice(d.bytes, bytes, fields[k]);
    RunExtends(bytes, fields[..k], fields[k]);
    assert fields[..k] + [fields[k]] == fields[..k + 1];
    DecodeStops(bytes, fields, k + 1);
  }

  // Fields are decoded up to the first, k, that spells no number.
  lemma PartialRun(bytes: seq<byte>, fields: seq<Field>, k: nat)
    requires Inside(fields, 0, |bytes|) && Separated(fields) && k <= |fields|
    requires forall i :: 0 <= i < k ==> Parsed(bytes, fields[i]).Some?
    requires k < |fields| ==> Parsed(bytes, fields[k]).None?
    ensures DecodeRun(bytes, fields).bytes == DecodeRun(bytes, fields[..k]).bytes
    ensures forall i :: 0 <= i < k ==> Stores(bytes, fields[i], DecodeRun(bytes, fields).bytes)
    ensures forall i :: k <= i < |fields| ==>
      Slice(DecodeRun(bytes, fields).bytes, fields[i]) == Slice(bytes, fields[i])
  {
    hide Parsed, Slice, DecodeRun, Stores;
    DecodeRunMeaning(bytes, fields[..k]);
    if k < |fields| {
      DecodeFails(bytes, fields, k);
    } else {
      assert fields[..k] == fields;
    }
    var r := DecodeRun(bytes, fields[..k]).bytes;
    forall i | 0 <= i < k ensures Stores(bytes, fields[i], r) {
      assert Stores(bytes, fields[..k][i], r);
    }
    forall i | k <= i < |fields| ensures Slice(r, fields[i]) == Slice(bytes, fields[i]) {
      DecodeRunFrame(bytes, fields[..k], fields[i]);
    }
  }

  lemma YrLayout()
    ensures forall i, j :: 0 <= i < |YrHeaderFields()| && 0 <= j < RANGES ==>
      Disjoint(YrHeaderFields()[i], Elements(23, RANGES)[j])
    ensures Separated(YrHeaderFields()) && Separated(Elements(23, RANGES))
    ensures |YrHeaderFields()| == 8 && |Elements(23, RANGES)| == RANGES
    ensures Inside(YrHeaderFields(), 0, ReplySize(YR)) && Inside(Elements(23, RANGES), 0, ReplySize(YR))
  {
  }

  // What the YR worker's callback gets: every header field and the checksum as a number,
  // or untouched where it spells none; the distances as numbers up to the first, k, that
  // spells none, and the raw digits from there on.
  lemma YrMeaning(raw: seq<byte>, k: nat)
    requires |raw| == ReplySize(YR) && k <= RANGES
    requires Inside(Elements(23, RANGES), 0, |raw|)
    requires forall i :: 0 <= i < k ==> Parsed(raw, Elements(23, RANGES)[i]).Some?
    requires k < RANGES ==> Parsed(raw, Elements(23, RANGES)[k]).None?
    ensures |YrHeaderFields()| == 8 && Inside(YrHeaderFields(), 0, |raw|)
    ensures forall j :: 0 <= j < 8 ==> Settled(raw, YrHeaderFields()[j], ProcessYr(raw))
    ensures forall i :: 0 <= i < k ==> Stores(raw, Elements(23, RANGES)[i], ProcessYr(raw))
    ensures forall i :: k <= i < RANGES ==>
      Slice(ProcessYr(raw), Elements(23, RANGES)[i]) == Slice(raw, Elements(23, RANGES)[i])
  {
    hide Parsed, Slice, Settled, Stores, DecodeRun, DecodeEach, YrHeaderFields, Elements, ReplySize;
    YrLayout();
    var h, e := YrHeaderFields(), Elements(23, RANGES);
    var header, r := DecodeEach(raw, h), ProcessYr(raw);
    DecodeEachMeaning(raw, h);
    forall i | 0 <= i < RANGES
      ensures Slice(header, e[i]) == Slice(raw, e[i]) && Parsed(header, e[i]) == Parsed(raw, e[i])
    {
      DecodeEachFrame(raw, h, e[i]);
      ParsedSlice(header, raw, e[i]);
    }
    PartialRun(header, e, k);
    forall j | 0 <= j < 8 ensures Settled(raw, h[j], r) {
      DecodeRunFrame(header, e, h[j]);
      SettledFrame(raw, h[j], header, r);
    }
    forall i | 0 <= i < k ensures Stores(raw, e[i], r) {
      StoresSlice(header, raw, e[i], r);
    }
  }

  lemma StoresSlice(a: seq<byte>, b: seq<byte>, f: Field, r: seq<byte>)
    requires f.End() <= |a| && f.End() <= |b| && f.End() <= |r|
    requires Slice(a, f) == Slice(b, f) && Stores(a, f, r)
    ensures Stores(b, f, r)
  {
  }

  // ----- dispatch -----

  // The worker that gets a packet. A subscription header carries either the reply to the
  // subscription or, with the size of a scan, a scan.
  function Route(bytes: seq<byte>, size: nat): Option<Kind>
    requires |bytes| >= HEADER_SIZE
  {
    if HasCode(bytes, AR00) || (HasCode(bytes, AR02) && size == ReplySize(AR00)) then Some(AR00)
    else if HasCode(bytes, AR01) || (HasCode(bytes, AR04) && size == ReplySize(AR01)) then Some(AR01)
    else if HasCode(bytes, AR06) || (HasCode(bytes, AR07) && size == ReplySize(AR06)) then Some(AR06)
    else if HasCode(bytes, AR02) then Some(AR02)
    else if HasCode(bytes, AR03) then Some(AR03)
    else if HasCode(bytes, AR04) then Some(AR04)
    else if HasCode(bytes, AR05) then Some(AR05)
    else if HasCode(bytes, AR07) then Some(AR07)
    else if HasCode(bytes, AR08) then Some(AR08)
    else if HasCode(bytes, VR00) then Some(VR00)
    else if HasCode(bytes, XR00) then Some(XR00)
    else if HasCode(bytes, ID00) then Some(ID00)
    else if HasCode(bytes, YR) then Some(YR)
    else None
  }

  // The worker a packet is meant for: a scan has the code of its own request or of the
  // subscription that repeats it, told apart by its size; otherwise the code decides.
  predicate MeantFor(bytes: seq<byte>, size: nat, k: Kind)
    requires |bytes| >= HEADER_SIZE
  {
    match k
    case AR00 => HasCode(bytes, AR00) || (HasCode(bytes, AR02) && size == ReplySize(AR00))
    case AR01 => HasCode(bytes, AR01) || (HasCode(bytes, AR04) && size == ReplySize(AR01))
    case AR06 => HasCode(bytes, AR06) || (HasCode(bytes, AR07) && size == ReplySize(AR06))
    case AR02 => HasCode(bytes, AR02) && size != ReplySize(AR00)
    case AR04 => HasCode(bytes, AR04) && size != ReplySize(AR01)
    case AR07 => HasCode(bytes, AR07) && size != ReplySize(AR06)
    case _ => HasCode(bytes, k)
  }

  // The order of the if-chain does not matter: a packet goes to a worker exactly when it
  // is meant for it, and no packet is meant for two.
  lemma RouteMeaning(bytes: seq<byte>, size: nat, k: Kind)
    requires |bytes| >= HEADER_SIZE
    ensures Route(bytes, size) == Some(k) <==> MeantFor(bytes, size, k)
  {
    hide ReplySize, HasCode;
    CodesDiffer(bytes);
  }

  lemma CodesDiffer(bytes: seq<byte>)
    requires |bytes| >= HEADER_SIZE
    ensures forall j, k :: HasCode(bytes, j) && HasCode(bytes, k) ==> j == k
  {
    hide ReplySize;
    forall j, k | HasCode(bytes, j) && HasCode(bytes, k) ensures j == k {
      var c := bytes[5..9];
      assert c[0] == Code(j)[0] == Code(k)[0];
      assert !j.YR? && !k.YR? ==> c[3] == Code(j)[3] == Code(k)[3];
    }
  }

  // The handler that runs and the decoded structure it is given.
  datatype Call = Call(kind: Kind, reply: seq<byte>)

  datatype Outcome = Outcome(processed: bool, call: Option<Call>)

  function Handle(k: Kind, raw: seq<byte>): Outcome
    requires |raw| == ReplySize(k)
  {
    if k.YR? then Outcome(true, Some(Call(YR, ProcessYr(raw))))
    else
      match ProcessRaw(k, raw)
      case None => Outcome(false, None)
      case Some(reply) => Outcome(true, Some(Call(k, reply)))
  }

  function Dispatch(packet: seq<byte>): Outcome
    requires |packet| == PACKET_SIZE
  {
    match Route(packet, Unchecked(packet, CMD_SIZE))
    case None => Outcome(false, None)
    case Some(k) => Handle(k, packet[..ReplySize(k)])
  }

  class UamPacketWorker {
    // Handlers that have run, oldest first.
    var calls: seq<Call>

    constructor ()
      ensures calls == []
    {
      calls := [];
    }

    method ProcessByHandler(packet: ShapeShifterPacket) returns (processed: bool)
      requires packet.Valid()
      modifies this
      ensures var outcome := Dispatch(packet.raw[..]);
        && processed == outcome.processed
        && calls == old(calls) + (if outcome.call.Some? then [outcome.call.value] else [])
    {
      hide ProcessRaw, ProcessYr, Route, Unchecked, ReplySize;
      var bytes := packet.raw[..];
      processed := false;
      match Route(bytes, Unchecked(bytes, CMD_SIZE))
      case None =>
      case Some(k) =>
        assert bytes[..ReplySize(k)] == packet.Get(k);
        if k.YR? {
          calls := calls + [Call(YR, ProcessYr(packet.Get(YR)))];
          processed := true;
        } else {
          var reply := Process(k, packet.Get(k));
          if reply.Some? {
            calls := calls + [Call(k, reply.value)];
            processed := true;
          }
        }
    }
  }

  // ----- frames do not leak into each other -----

  // A frame as the receiver completes it: its size field is its length.
  predicate WellSized(frame: seq<byte>)
  {
    && HEADER_SIZE <= |frame| <= PACKET_SIZE
    && Parsed(frame, CMD_SIZE) == Some(|frame|)
  }

  ghost predicate Holds(packet: seq<byte>, frame: seq<byte>)
  {
    |packet| == PACKET_SIZE && frame <= packet
  }

  // Whatever earlier frames left behind this one in the buffer, the same handler runs on
  // the same value.
  ghost predicate Isolated(frame: seq<byte>)
  {
    forall p, q :: Holds(p, frame) && Holds(q, frame) ==> Dispatch(p) == Dispatch(q)
  }

  lemma SameRoute(p: seq<byte>, frame: seq<byte>)
    requires WellSized(frame) && Holds(p, frame)
    ensures Route(p, Unchecked(p, CMD_SIZE)) == Route(frame, |frame|)
    ensures Parsed(p, CMD_SIZE) == Some(|frame|)
  {
    hide Parsed, ReplySize, Code;
    assert p[5..9] == frame[5..9];
    assert Slice(p, CMD_SIZE) == Slice(frame, CMD_SIZE);
    assert Parsed(p, CMD_SIZE) == Parsed(frame, CMD_SIZE) by { ParsedSlice(p, frame, CMD_SIZE); }
  }

  lemma ParsedSlice(p: seq<byte>, q: seq<byte>, f: Field)
    requires f.End() <= |p| && f.End() <= |q| && Slice(p, f) == Slice(q, f)
    ensures Parsed(p, f) == Parsed(q, f)
  {
  }

  // Validating workers read beyond a short frame, but then refuse it for its size.
  lemma HandleIsolated(k: Kind, p: seq<byte>, q: seq<byte>, frame: seq<byte>)
    requires WellSized(frame) && Holds(p, frame) && Holds(q, frame)
    requires k.YR? ==> |frame| >= ReplySize(k)
    ensures Handle(k, p[..ReplySize(k)]) == Handle(k, q[..ReplySize(k)])
  {
    hide ReplySize, Parsed, ProcessYr;
    var n := ReplySize(k);
    if |frame| >= n {
      assert p[..n] == frame[..n] == q[..n];
    } else {
      SameRoute(p, frame);
      SameRoute(q, frame);
      ParsedSlice(p, p[..n], CMD_SIZE);
      ParsedSlice(q, q[..n], CMD_SIZE);
    }
  }

  lemma OnlyYr(frame: seq<byte>, size: nat)
    requires |frame| >= HEADER_SIZE
    ensures Route(frame, size) == Some(YR) <==> HasCode(frame, YR)
  {
    hide ReplySize, Route;
    RouteMeaning(frame, size, YR);
  }

  lemma ByteKept(raw: seq<byte>, i: nat)
    requires |raw| == ReplySize(YR) && i == ReplySize(YR) - 1
    ensures ProcessYr(raw)[i] == raw[i]
  {
    hide Parsed;
    var g := Field(i, 1, Plain);
    var header := DecodeEach(raw, YrHeaderFields());
    DecodeEachFrame(raw, YrHeaderFields(), g);
    DecodeRunFrame(header, Elements(23, RANGES), g);
    assert Slice(ProcessYr(raw), g)[0] == Slice(raw, g)[0];
  }

  lemma {:induction false} DecodeEachFrame(bytes: seq<byte>, fields: seq<Field>, g: Field)
    requires Inside(fields, 0, |bytes|) && g.End() <= |bytes|
    requires forall i :: 0 <= i < |fields| ==> Disjoint(fields[i], g)
    ensures Slice(DecodeEach(bytes, fields), g) == Slice(bytes, g)
  {
    hide DecodeOne;
    if fields != [] {
      var n := |fields| - 1;
      DecodeEachFrame(bytes, fields[..n], g);
      DecodeOneFrame(DecodeEach(bytes, fields[..n]), fields[n], g);
    }
  }

  // A frame is isolated from the buffer's history exactly when it is not a YR reply that
  // is shorter than the structure its worker copies.
  lemma FrameIsolation(frame: seq<byte>)
    requires WellSized(frame)
    ensures Isolated(frame) <==> (HasCode(frame, YR) ==> |frame| >= ReplySize(YR))
  {
    hide ReplySize, Route, HasCode, ProcessYr, Handle, Parsed;
    OnlyYr(frame, |frame|);
    if HasCode(frame, YR) && |frame| < ReplySize(YR) {
      ShortYrLeaks(frame);
    } else {
      forall p, q | Holds(p, frame) && Holds(q, frame) ensures Dispatch(p) == Dispatch(q) {
        SameRoute(p, frame);
        SameRoute(q, frame);
        if Route(frame, |frame|).Some? {
          HandleIsolated(Route(frame, |frame|).value, p, q, frame);
        }
      }
    }
  }

  lemma ShortYrLeaks(frame: seq<byte>)
    requires WellSized(frame) && HasCode(frame, YR) && |frame| < ReplySize(YR)
    ensures !Isolated(frame)
  {
    hide Parsed, ProcessYr, HasCode, Route;
    var last := ReplySize(YR) - 1;
    var p := frame + seq(PACKET_SIZE - |frame|, i => 0 as byte);
    var q := p[last := 1];
    assert Holds(p, frame) && Holds(q, frame);
    OnlyYr(frame, |frame|);
    SameRoute(p, frame);
    SameRoute(q, frame);
    ByteKept(p[..last + 1], last);
    ByteKept(q[..last + 1], last);
    assert Dispatch(p).call.value.reply[last] != Dispatch(q).call.value.reply[last];
  }

  // What a frame does when it arrives.
  function FrameOutcome(frame: seq<byte>): Outcome
    requires |frame| <= PACKET_SIZE
  {
    Dispatch(frame + seq(PACKET_SIZE - |frame|, i => 0))
  }
}
