// UamDriver::sendCommandWithReply: one reply slot between the thread that sends commands
// and the thread that receives frames, with a device that answers in order and streams
// scans in between.
module ReplyMatching {
  import opened Wrappers
  import opened Protocol
  import opened Decoding
  import opened Worker
  import opened PacketWorker
  import opened Replies

  // Scans go to the scan callback; the handlers of all other kinds fill the reply slot.
  predicate IsScanKind(k: Kind)
  {
    k in {AR00, AR01, AR06}
  }

  ghost predicate IsScan(frame: seq<byte>)
  {
    && WellSized(frame)
    && Route(frame, |frame|).Some? && IsScanKind(Route(frame, |frame|).value)
  }

  // A valid answer to command k. The YR worker does not look at the checksum or the status.
  ghost predicate IsReply(k: Kind, frame: seq<byte>)
  {
    && |frame| == ReplySize(k)
    && HasCode(frame, k)
    && (if k.YR? then Parsed(frame, CMD_SIZE) == Some(|frame|) else ProcessRaw(k, frame).Some?)
  }

  ghost function DecodedReply(k: Kind, frame: seq<byte>): (reply: seq<byte>)
    requires IsReply(k, frame)
    ensures |reply| == ReplySize(k)
  {
    if k.YR? then ProcessYr(frame) else ProcessRaw(k, frame).value
  }

  // ----- the state machine -----

  // A frame on its way to the host; index says which command a reply answers, which the
  // host itself does not know.
  datatype Packet =
    | Reply(index: nat, frame: seq<byte>)
    | Scan(frame: seq<byte>)

  // The connection to the device.
  datatype Line = Line(
    commands: seq<Kind>,         // what has been sent
    replies: seq<seq<byte>>,     // what the device has answered, in order
    received: nat,               // how many of the replies the host has received
    incoming: seq<Packet>)

  // pending_command_reply_ and its flag; source is the reply the slot was last filled from.
  datatype Slot = Slot(ready: bool, bytes: seq<byte>, source: Option<nat>)

  // mark: how many replies had been received when the flag was cleared.
  datatype Phase =
    | Idle
    | Cleared(command: Kind, mark: nat)   // the flag is down, nothing sent yet
    | Waiting(command: Kind, mark: nat)   // sent, blocked on the condition variable

  // What sendCommandWithReply returned to which command, when it had received how many
  // replies, and which of them the value comes from.
  datatype Result = Result(command: nat, mark: nat, received: nat, source: Option<nat>, value: seq<byte>)

  datatype State = State(
    phase: Phase, slot: Slot, line: Line, results: seq<Result>,
    timedOut: bool)              // whether a send or a command has timed out on this connection

  datatype Event =
    | Begin(command: Kind)
    | Send
    | SendFails        // nothing leaves the host
    | SendTimesOut     // the caller gives up, but the command goes out all the same
    | Answer(frame: seq<byte>)
    | Stream(frame: seq<byte>)
    | Receive
    | Return
    | TimeOut

  ghost predicate Enabled(s: State, e: Event)
  {
    match e
    case Begin(_) => s.phase.Idle?
    case Send => s.phase.Cleared?
    case SendFails => s.phase.Cleared?
    case SendTimesOut => s.phase.Cleared?
    case Answer(frame) =>
      |s.line.replies| < |s.line.commands| && IsReply(s.line.commands[|s.line.replies|], frame)
    case Stream(frame) => IsScan(frame)
    case Receive => s.line.incoming != [] && |s.line.incoming[0].frame| <= PACKET_SIZE
    case Return => s.phase.Waiting? && s.slot.ready && s.line.commands != []
    case TimeOut => s.phase.Waiting? && !s.slot.ready
  }

  // The slot is a union: a reply overwrites the front of it.
  function Filled(bytes: seq<byte>, reply: seq<byte>): seq<byte>
  {
    reply + if |reply| <= |bytes| then bytes[|reply|..] else []
  }

  function Front(bytes: seq<byte>, n: nat): seq<byte>
  {
    if n <= |bytes| then bytes[..n] else bytes
  }

  // processCommandReply for the frames that reach it; scans leave the slot alone.
  function Taken(v: Slot, p: Packet): Slot
    requires |p.frame| <= PACKET_SIZE
  {
    var call := FrameOutcome(p.frame).call;
    if call.Some? && !IsScanKind(call.value.kind) then
      Slot(true, Filled(v.bytes, call.value.reply), if p.Reply? then Some(p.index) else None)
    else v
  }

  function LineTaken(l: Line): Line
    requires l.incoming != []
  {
    l.(incoming := l.incoming[1..], received := l.received + if l.incoming[0].Reply? then 1 else 0)
  }

  function Begun(s: State, k: Kind): State
  {
    s.(phase := Cleared(k, s.line.received), slot := s.slot.(ready := false))
  }

  ghost function Apply(s: State, e: Event): State
    requires Enabled(s, e)
  {
    match e
    case Begin(k) => Begun(s, k)
    case Send =>
      s.(phase := Waiting(s.phase.command, s.phase.mark),
         line := s.line.(commands := s.line.commands + [s.phase.command]))
    case SendFails => s.(phase := Idle)
    case SendTimesOut =>
      s.(phase := Idle, timedOut := true,
         line := s.line.(commands := s.line.commands + [s.phase.command]))
    case Answer(frame) =>
      s.(line := s.line.(replies := s.line.replies + [frame],
                         incoming := s.line.incoming + [Reply(|s.line.replies|, frame)]))
    case Stream(frame) => s.(line := s.line.(incoming := s.line.incoming + [Scan(frame)]))
    case Receive => s.(line := LineTaken(s.line), slot := Taken(s.slot, s.line.incoming[0]))
    case Return =>
      s.(phase := Idle,
         results := s.results + [Result(|s.line.commands| - 1, s.phase.mark, s.line.received, s.slot.source,
                                        Front(s.slot.bytes, ReplySize(s.phase.command)))])
    case TimeOut => s.(phase := Idle, timedOut := true)
  }

  ghost predicate Initial(s: State)
  {
    && s.phase.Idle? && |s.slot.bytes| == PACKET_SIZE && s.slot.source.None? && !s.timedOut
    && s.line == Line([], [], 0, []) && s.results == []
  }

  ghost predicate Next(s: State, t: State)
  {
    exists e :: Enabled(s, e) && t == Apply(s, e)
  }

  ghost predicate IsRun(run: seq<State>)
  {
    && run != [] && Initial(run[0])
    && forall i :: 0 <= i < |run| - 1 ==> Next(run[i], run[i + 1])
  }

  function Last(run: seq<State>): State
    requires run != []
  {
    run[|run| - 1]
  }

  // The fields of UamDriver behind those steps.
  class PendingCommand {
    var ready: bool
    const slot: ShapeShifterPacket

    ghost predicate Valid()
      reads this, slot
    {
      slot.Valid()
    }

    constructor ()
      ensures Valid() && !ready && fresh(slot) && fresh(slot.raw)
    {
      ready := false;
      slot := new ShapeShifterPacket();
    }

    method Clear()
      modifies this
      ensures !ready
    {
      ready := false;
    }

    // The handler of every worker but the three scan workers.
    method ProcessCommandReply(k: Kind, reply: seq<byte>)
      requires Valid() && |reply| == ReplySize(k) && !IsScanKind(k)
      modifies this, slot.raw
      ensures Valid() && ready && slot.raw[..] == Filled(old(slot.raw[..]), reply)
    {
      slot.Set(k, reply);
      ready := true;
    }

    // The end of the wait: what sendCommandWithReply returns once the flag is up.
    method TakeReply(k: Kind) returns (reply: Option<seq<byte>>)
      requires Valid()
      ensures reply == if ready then Some(Front(slot.raw[..], ReplySize(k))) else None
    {
      if !ready {
        return None;
      }
      return Some(slot.Get(k));
    }
  }

  // ----- what frames do -----

  lemma ReplyIsWellSized(k: Kind, frame: seq<byte>)
    requires IsReply(k, frame)
    ensures WellSized(frame) && MeantFor(frame, |frame|, k)
  {
    hide ReplySize, Parsed, HasCode;
    if !k.YR? {
      AcceptedReplies(k, frame);
    }
    ScanSizes();
  }

  lemma ScanSizes()
    ensures ReplySize(AR02) != ReplySize(AR00) && ReplySize(AR04) != ReplySize(AR01)
    ensures ReplySize(AR07) != ReplySize(AR06)
  {
  }

  // A valid reply runs the handler of its own kind on its own decoding; to a command whose
  // reply is a scan, it is a scan.
  lemma ReplyOutcome(k: Kind, frame: seq<byte>)
    requires IsReply(k, frame)
    ensures |frame| <= PACKET_SIZE
    ensures FrameOutcome(frame) == Outcome(true, Some(Call(k, DecodedReply(k, frame))))
    ensures IsScanKind(k) ==> IsScan(frame)
  {
    hide ReplySize, Parsed, HasCode, ProcessRaw, ProcessYr, Route;
    ReplyIsWellSized(k, frame);
    RouteMeaning(frame, |frame|, k);
    var packet := frame + seq(PACKET_SIZE - |frame|, i => 0);
    SameRoute(packet, frame);
    assert packet[..|frame|] == frame;
  }

  lemma ScanOutcome(frame: seq<byte>)
    requires IsScan(frame)
    ensures |frame| <= PACKET_SIZE
    ensures var call := FrameOutcome(frame).call; call.Some? ==> IsScanKind(call.value.kind)
  {
    hide ReplySize, Parsed, HasCode, ProcessRaw, ProcessYr, Route;
    var packet := frame + seq(PACKET_SIZE - |frame|, i => 0);
    SameRoute(packet, frame);
  }

  // A code survives decoding.
  lemma CodeKept(k: Kind, frame: seq<byte>)
    requires IsReply(k, frame)
    ensures HasCode(DecodedReply(k, frame), k)
  {
    hide ReplySize, Parsed, ReplyFields, ProcessRaw, Elements;
    var f := Field(5, |Code(k)|, Plain);
    if k.YR? {
      YrLayout();
      var header := DecodeEach(frame, YrHeaderFields());
      DecodeEachFrame(frame, YrHeaderFields(), f);
      ElementsBeyond(f);
      DecodeRunFrame(header, Elements(23, RANGES), f);
      assert Slice(DecodedReply(k, frame), f) == DecodedReply(k, frame)[5..9][..2];
      assert Slice(frame, f) == frame[5..9][..2];
    } else {
      ReplyLayout(k);
      FieldsBeyondCode(k);
      DecodeRunFrame(frame, ReplyFields(k), f);
      assert ProcessRaw(k, frame).value == DecodeRun(frame, ReplyFields(k)).bytes by { AcceptedIsDecoded(k, frame); }
    }
  }

  lemma AcceptedIsDecoded(k: Kind, frame: seq<byte>)
    requires !k.YR? && |frame| == ReplySize(k) && ProcessRaw(k, frame).Some?
    ensures Inside(ReplyFields(k), 0, |frame|)
    ensures ProcessRaw(k, frame).value == DecodeRun(frame, ReplyFields(k)).bytes
  {
    hide ReplySize, Parsed, ReplyFields, DecodeRun, ComputedCrc;
    ReplyLayout(k);
  }

  lemma ElementsBeyond(f: Field)
    requires f.End() <= 23
    ensures forall i :: 0 <= i < RANGES ==> Disjoint(Elements(23, RANGES)[i], f)
  {
  }

  lemma FieldsBeyondCode(k: Kind)
    requires !k.YR?
    ensures forall i :: 0 <= i < |ReplyFields(k)| ==> Disjoint(ReplyFields(k)[i], Field(5, 4, Plain))
  {
    hide DataFields;
    OrderedDataFields(k);
  }

  // ----- the invariant -----

  // None of the replies to commands lo up to hi fills the slot.
  ghost predicate Silent(commands: seq<Kind>, lo: nat, hi: nat)
  {
    hi <= |commands| && forall j :: lo <= j < hi ==> IsScanKind(commands[j])
  }

  // The replies from number from on are on their way, in order, with scans in between.
  ghost predicate InOrder(incoming: seq<Packet>, from: nat, replies: seq<seq<byte>>)
  {
    if incoming == [] then from == |replies|
    else
      match incoming[0]
      case Scan(f) => IsScan(f) && InOrder(incoming[1..], from, replies)
      case Reply(i, f) => i == from < |replies| && f == replies[i] && InOrder(incoming[1..], from + 1, replies)
  }

  ghost predicate LineInv(l: Line)
  {
    && l.received <= |l.replies| <= |l.commands|
    && (forall i :: 0 <= i < |l.replies| ==> IsReply(l.commands[i], l.replies[i]))
    && InOrder(l.incoming, l.received, l.replies)
  }

  // The slot begins with the decoding of the last reply received that fills it.
  ghost predicate SlotInv(l: Line, v: Slot)
    requires LineInv(l)
  {
    && |v.bytes| == PACKET_SIZE
    && match v.source
       case None => Silent(l.commands, 0, l.received)
       case Some(i) =>
         && i < l.received && !IsScanKind(l.commands[i]) && Silent(l.commands, i + 1, l.received)
         && v.bytes[..ReplySize(l.commands[i])] == DecodedReply(l.commands[i], l.replies[i])
  }

  // The flag is up exactly when a reply that fills the slot has come since it was cleared.
  ghost predicate PhaseInv(s: State)
  {
    match s.phase
    case Idle => true
    case Cleared(_, mark) =>
      mark <= s.line.received && (s.slot.ready <==> !Silent(s.line.commands, mark, s.line.received))
    case Waiting(k, mark) =>
      && s.line.commands != [] && s.line.commands[|s.line.commands| - 1] == k && mark < |s.line.commands|
      && mark <= s.line.received && (s.slot.ready <==> !Silent(s.line.commands, mark, s.line.received))
  }

  // A value comes from the last reply received that fills the slot, and that one came
  // after the flag was cleared.
  ghost predicate ResultInv(l: Line, r: Result)
    requires LineInv(l)
  {
    && r.command < |l.commands| && r.received <= l.received && r.received <= r.command + 1
    && r.source.Some? && r.mark <= r.source.value < r.received
    && !IsScanKind(l.commands[r.source.value]) && Silent(l.commands, r.source.value + 1, r.received)
    && |r.value| == ReplySize(l.commands[r.command])
    && var reply := DecodedReply(l.commands[r.source.value], l.replies[r.source.value]);
       Front(r.value, |reply|) == Front(reply, |r.value|)
  }

  ghost predicate AllResults(l: Line, results: seq<Result>)
    requires LineInv(l)
  {
    forall i :: 0 <= i < |results| ==> ResultInv(l, results[i])
  }

  // Without a time-out nothing that fills the slot is left over from earlier commands.
  ghost predicate OnTime(s: State)
  {
    !s.timedOut ==>
      && (match s.phase
          case Idle => Silent(s.line.commands, s.line.received, |s.line.commands|)
          case Cleared(_, mark) => Silent(s.line.commands, mark, |s.line.commands|)
          case Waiting(_, mark) => s.line.commands != [] && Silent(s.line.commands, mark, |s.line.commands| - 1))
      && forall i :: 0 <= i < |s.results| ==> Silent(s.line.commands, s.results[i].mark, s.results[i].command)
  }

  ghost predicate Inv(s: State)
  {
    && LineInv(s.line) && SlotInv(s.line, s.slot) && PhaseInv(s) && AllResults(s.line, s.results) && OnTime(s)
  }

  lemma InitialInv(s: State)
    requires Initial(s)
    ensures Inv(s)
  {
  }

  // ----- frames in order -----

  lemma {:induction false} StreamInOrder(incoming: seq<Packet>, from: nat, replies: seq<seq<byte>>, f: seq<byte>)
    requires InOrder(incoming, from, replies) && IsScan(f)
    ensures InOrder(incoming + [Scan(f)], from, replies)
    decreases |incoming|
  {
    hide IsScan;
    if incoming == [] {
      assert ([Scan(f)])[1..] == [];
      assert incoming + [Scan(f)] == [Scan(f)];
    } else {
      StreamInOrder(incoming[1..], from + if incoming[0].Reply? then 1 else 0, replies, f);
      assert (incoming + [Scan(f)])[1..] == incoming[1..] + [Scan(f)];
    }
  }

  lemma {:induction false} AnswerInOrder(incoming: seq<Packet>, from: nat, replies: seq<seq<byte>>, f: seq<byte>)
    requires InOrder(incoming, from, replies)
    ensures InOrder(incoming + [Reply(|replies|, f)], from, replies + [f])
    decreases |incoming|
  {
    hide IsScan;
    var p := Reply(|replies|, f);
    if incoming == [] {
      assert ([p])[1..] == [];
      assert incoming + [p] == [p];
    } else {
      AnswerInOrder(incoming[1..], from + if incoming[0].Reply? then 1 else 0, replies, f);
      assert (incoming + [p])[1..] == incoming[1..] + [p];
    }
  }

  // The next frame to arrive: a scan, or the next reply.
  lemma FirstInOrder(l: Line)
    requires LineInv(l) && l.incoming != []
    ensures LineInv(LineTaken(l)) && |l.incoming[0].frame| <= PACKET_SIZE
    ensures match l.incoming[0]
      case Scan(f) => IsScan(f)
      case Reply(i, f) => i == l.received < |l.replies| && f == l.replies[i] && IsReply(l.commands[i], f)
  {
    hide IsScan, IsReply, ReplySize, FrameOutcome, DecodedReply;
    match l.incoming[0]
    case Scan(f) => ScanOutcome(f);
    case Reply(i, f) => ReplyOutcome(l.commands[i], f);
  }

  lemma {:induction false} NothingIncoming(incoming: seq<Packet>, from: nat, replies: seq<seq<byte>>)
    requires InOrder(incoming, from, replies)
    ensures from <= |replies|
    ensures incoming == [] ==> from == |replies|
    decreases |incoming|
  {
    if incoming != [] {
      NothingIncoming(incoming[1..], from + if incoming[0].Reply? then 1 else 0, replies);
    }
  }

  // What a frame does to the slot.
  lemma TakenMeaning(v: Slot, l: Line)
    requires LineInv(l) && l.incoming != []
    ensures |l.incoming[0].frame| <= PACKET_SIZE
    ensures Taken(v, l.incoming[0]) == match l.incoming[0]
      case Scan(_) => v
      case Reply(i, f) =>
        if IsScanKind(l.commands[l.received]) then v
        else Slot(true, Filled(v.bytes, DecodedReply(l.commands[l.received], l.replies[l.received])), Some(l.received))
  {
    hide IsScan, IsReply, ReplySize, FrameOutcome, DecodedReply, InOrder;
    FirstInOrder(l);
    match l.incoming[0]
    case Scan(f) => ScanOutcome(f);
    case Reply(i, f) =>
      ReplyOutcome(l.commands[i], f);
      if IsScanKind(l.commands[i]) { ScanOutcome(f); }
  }

  // ----- every step keeps the invariant -----

  lemma ReceiveKeepsSlot(s: State)
    requires Inv(s) && Enabled(s, Receive)
    ensures LineInv(LineTaken(s.line))
    ensures SlotInv(LineTaken(s.line), Taken(s.slot, s.line.incoming[0]))
    ensures PhaseInv(Apply(s, Receive))
  {
    hide IsScan, IsReply, ReplySize, FrameOutcome, DecodedReply, InOrder, Taken, IsScanKind, AllResults, OnTime;
    FirstInOrder(s.line);
    TakenMeaning(s.slot, s.line);
    var l := s.line;
    if l.incoming[0].Reply? {
      SilentNext(l.commands, if s.phase.Idle? then 0 else s.phase.mark, l.received);
      SilentNext(l.commands, 0, l.received);
      if s.slot.source.Some? {
        SilentNext(l.commands, s.slot.source.value + 1, l.received);
      }
      if !IsScanKind(l.commands[l.received]) {
        FilledFront(s.slot.bytes, DecodedReply(l.commands[l.received], l.replies[l.received]));
      }
    }
  }

  lemma FilledFront(bytes: seq<byte>, reply: seq<byte>)
    requires |reply| <= |bytes|
    ensures |Filled(bytes, reply)| == |bytes| && Filled(bytes, reply)[..|reply|] == reply
  {
  }

  lemma SilentNext(commands: seq<Kind>, lo: nat, hi: nat)
    requires hi < |commands|
    ensures lo <= hi ==> (Silent(commands, lo, hi + 1) <==> Silent(commands, lo, hi) && IsScanKind(commands[hi]))
    ensures Silent(commands, hi + 1, hi + 1)
  {
  }

  // More commands, replies and arrivals change nothing about earlier results.
  lemma ResultsStay(l: Line, m: Line, results: seq<Result>)
    requires LineInv(l) && LineInv(m) && AllResults(l, results)
    requires l.commands <= m.commands && l.replies <= m.replies && l.received <= m.received
    ensures AllResults(m, results)
  {
    hide IsScan, IsReply, ReplySize, DecodedReply, InOrder, IsScanKind;
    forall i | 0 <= i < |results| ensures ResultInv(m, results[i]) {
      assert ResultInv(l, results[i]);
    }
  }

  lemma SlotStays(l: Line, m: Line, v: Slot)
    requires LineInv(l) && LineInv(m) && SlotInv(l, v)
    requires l.commands <= m.commands && l.replies <= m.replies && l.received == m.received
    ensures SlotInv(m, v)
  {
    hide IsScan, IsReply, ReplySize, DecodedReply, InOrder, IsScanKind;
  }

  lemma SilentStays(commands: seq<Kind>, more: seq<Kind>, lo: nat, hi: nat)
    requires hi <= |commands|
    ensures Silent(commands, lo, hi) <==> Silent(commands + more, lo, hi)
  {
    hide IsScanKind;
    if Silent(commands + more, lo, hi) {
      forall j | lo <= j < hi ensures IsScanKind(commands[j]) {
        assert (commands + more)[j] == commands[j];
      }
    }
  }

  lemma ReturnKeepsResults(s: State)
    requires Inv(s) && Enabled(s, Return)
    ensures AllResults(s.line, Apply(s, Return).results)
  {
    hide IsScan, IsReply, ReplySize, DecodedReply, InOrder, IsScanKind;
    var i, mark := s.slot.source, s.phase.mark;
    assert !Silent(s.line.commands, mark, s.line.received);
    assert i.Some? && mark <= i.value;
    var reply := DecodedReply(s.line.commands[i.value], s.line.replies[i.value]);
    assert s.slot.bytes[..|reply|] == reply;
  }

  // The rest of the invariant, apart from the slot and the line.
  lemma OnTimeKept(s: State, e: Event)
    requires Inv(s) && Enabled(s, e)
    ensures OnTime(Apply(s, e))
  {
    hide IsScan, IsReply, ReplySize, DecodedReply, InOrder, IsScanKind, FrameOutcome, Taken, Front;
  }

  lemma StepKeepsInv(s: State, e: Event)
    requires Inv(s) && Enabled(s, e)
    ensures Inv(Apply(s, e))
  {
    hide IsScan, IsReply, ReplySize, DecodedReply, InOrder, IsScanKind, FrameOutcome, Taken, Front, Silent;
    var t := Apply(s, e);
    OnTimeKept(s, e);
    match e
    case Receive =>
      ReceiveKeepsSlot(s);
      ResultsStay(s.line, t.line, s.results);
    case Answer(f) =>
      AnswerInOrder(s.line.incoming, s.line.received, s.line.replies, f);
      SlotStays(s.line, t.line, s.slot);
      ResultsStay(s.line, t.line, s.results);
    case Stream(f) =>
      StreamInOrder(s.line.incoming, s.line.received, s.line.replies, f);
      SlotStays(s.line, t.line, s.slot);
      ResultsStay(s.line, t.line, s.results);
    case Send =>
      SlotStays(s.line, t.line, s.slot);
      ResultsStay(s.line, t.line, s.results);
      SilentStays(s.line.commands, [s.phase.command], s.phase.mark, s.line.received);
    case SendTimesOut =>
      SlotStays(s.line, t.line, s.slot);
      ResultsStay(s.line, t.line, s.results);
    case Return => ReturnKeepsResults(s);
    case Begin(_) => NothingSilent(s.line.commands, s.line.received);
    case _ =>
  }

  lemma NothingSilent(commands: seq<Kind>, n: nat)
    requires n <= |commands|
    ensures Silent(commands, n, n)
  {
  }

  lemma {:induction false} RunKeepsInv(run: seq<State>, i: nat)
    requires IsRun(run) && i < |run|
    ensures Inv(run[i])
  {
    hide Inv, Enabled;
    if i == 0 {
      InitialInv(run[0]);
    } else {
      RunKeepsInv(run, i - 1);
      assert Next(run[i - 1], run[i - 1 + 1]);
      var e :| Enabled(run[i - 1], e) && run[i] == Apply(run[i - 1], e);
      StepKeepsInv(run[i - 1], e);
    }
  }

  // ----- what is returned -----

  // In every run, time-outs or not: a value returned to a command comes from the last
  // reply received that fills the slot, to this command or to an earlier one whose reply
  // was outstanding when the flag was cleared. It comes from the command's own reply
  // exactly when that had been received, and then it is its decoding.
  lemma ReturnedReply(run: seq<State>, i: nat, j: nat)
    requires IsRun(run) && i < |run| && j < |run[i].results|
    ensures var l, r := run[i].line, run[i].results[j];
      && r.command < |l.commands| && |l.replies| <= |l.commands|
      && r.source.Some? && r.mark <= r.source.value <= r.command && r.source.value < |l.replies|
      && !IsScanKind(l.commands[r.source.value])
      && (r.source.value == r.command <==> r.received > r.command && !IsScanKind(l.commands[r.command]))
      && (r.source.value == r.command ==>
          IsReply(l.commands[r.command], l.replies[r.command])
          && r.value == DecodedReply(l.commands[r.command], l.replies[r.command]))
  {
    hide IsScan, IsReply, ReplySize, DecodedReply, InOrder, IsScanKind, SlotInv, PhaseInv, OnTime;
    RunKeepsInv(run, i);
    assert ResultInv(run[i].line, run[i].results[j]);
  }

  // If no reply that fills the slot was outstanding when the flag was cleared, the value
  // returned is the decoding of the device's reply to that very command, whatever scans
  // arrive in between and whatever happened before.
  lemma OwnReply(run: seq<State>, i: nat, j: nat)
    requires IsRun(run) && i < |run| && j < |run[i].results|
    requires Silent(run[i].line.commands, run[i].results[j].mark, run[i].results[j].command)
    ensures var l, r := run[i].line, run[i].results[j];
      && r.command < |l.replies| <= |l.commands| && IsReply(l.commands[r.command], l.replies[r.command])
      && r.source == Some(r.command) && r.value == DecodedReply(l.commands[r.command], l.replies[r.command])
  {
    hide IsReply, DecodedReply, IsScanKind;
    ReturnedReply(run, i, j);
  }

  // So while no command has timed out, every reply matches.
  lemma RepliesMatch(run: seq<State>, i: nat, j: nat)
    requires IsRun(run) && i < |run| && !run[i].timedOut && j < |run[i].results|
    ensures var l, r := run[i].line, run[i].results[j];
      && r.command < |l.replies| <= |l.commands| && IsReply(l.commands[r.command], l.replies[r.command])
      && r.source == Some(r.command) && r.value == DecodedReply(l.commands[r.command], l.replies[r.command])
  {
    hide IsReply, DecodedReply, IsScanKind, LineInv, SlotInv, PhaseInv, AllResults, Silent;
    RunKeepsInv(run, i);
    OwnReply(run, i, j);
  }

  // ----- when the wait ends -----

  // When the device has answered everything and all has arrived, the flag is up exactly if
  // a reply that fills the slot has come since it was cleared; a command whose own reply
  // does so then gets it.
  lemma WaitAnswered(run: seq<State>, i: nat)
    requires IsRun(run) && i < |run| && run[i].phase.Waiting?
    requires |run[i].line.replies| == |run[i].line.commands| && run[i].line.incoming == []
    ensures var s := run[i];
      s.slot.ready <==> !Silent(s.line.commands, s.phase.mark, |s.line.commands|)
    ensures var s, c := run[i], |run[i].line.commands| - 1;
      !IsScanKind(s.phase.command) ==>
        && Enabled(s, Return) && IsReply(s.phase.command, s.line.replies[c])
        && Apply(s, Return).results
           == s.results + [Result(c, s.phase.mark, c + 1, Some(c), DecodedReply(s.phase.command, s.line.replies[c]))]
  {
    hide IsScan, IsReply, ReplySize, DecodedReply, IsScanKind, AllResults, OnTime;
    RunKeepsInv(run, i);
    var s := run[i];
    NothingIncoming(s.line.incoming, s.line.received, s.line.replies);
    if !IsScanKind(s.phase.command) {
      assert !Silent(s.line.commands, s.phase.mark, s.line.received);
      assert s.slot.source == Some(|s.line.commands| - 1);
    }
  }

  // Without a time-out, exactly the commands that are not answered by a scan get an answer.
  lemma InTimeWaitAnswered(run: seq<State>, i: nat)
    requires IsRun(run) && i < |run| && run[i].phase.Waiting? && !run[i].timedOut
    requires |run[i].line.replies| == |run[i].line.commands| && run[i].line.incoming == []
    ensures run[i].slot.ready <==> !IsScanKind(run[i].phase.command)
  {
    hide IsScanKind, LineInv, SlotInv, AllResults;
    RunKeepsInv(run, i);
    WaitAnswered(run, i);
  }

  // Stopping an AR07 subscription sends AR06, whose reply is a scan: unless an earlier
  // reply that fills the slot was outstanding, the wait for it is never satisfied.
  lemma ScanWaitNeverEnds(run: seq<State>, i: nat)
    requires IsRun(run) && i < |run| && run[i].phase.Waiting? && IsScanKind(run[i].phase.command)
    requires run[i].line.commands != []
    requires Silent(run[i].line.commands, run[i].phase.mark, |run[i].line.commands| - 1)
    ensures !run[i].slot.ready && !Enabled(run[i], Return)
  {
    hide IsScan, IsReply, DecodedReply, IsScanKind, AllResults, OnTime, SlotInv, InOrder;
    RunKeepsInv(run, i);
  }

  lemma StopOfAr07NeverReturns(run: seq<State>, i: nat)
    requires IsRun(run) && i < |run| && !run[i].timedOut && run[i].phase.Waiting? && run[i].phase.command == AR06
    ensures !run[i].slot.ready && !Enabled(run[i], Return)
  {
    hide LineInv, SlotInv, AllResults, Silent;
    RunKeepsInv(run, i);
    ScanWaitNeverEnds(run, i);
  }

  // ----- making runs -----

  lemma Start(s: State)
    requires Initial(s)
    ensures IsRun([s])
  {
  }

  lemma Extend(run: seq<State>, e: Event) returns (longer: seq<State>)
    requires IsRun(run) && Enabled(Last(run), e)
    ensures IsRun(longer) && longer == run + [Apply(Last(run), e)]
  {
    hide Enabled, Apply, Initial;
    longer := run + [Apply(Last(run), e)];
    forall i | 0 <= i < |longer| - 1 ensures Next(longer[i], longer[i + 1]) {
      if i < |run| - 1 {
        assert Next(run[i], run[i + 1]);
      } else {
        assert longer[i] == Last(run);
      }
    }
  }

  lemma NullReplyIsReply(k: Kind)
    ensures IsReply(k, NullReply(k))
  {
    hide NullReply, ProcessRaw, HasCode, ReplySize, Parsed;
    NullReplyAccepted(k);
  }

  // A device can always answer the next command.
  lemma DeviceAnswers(run: seq<State>) returns (longer: seq<State>)
    requires IsRun(run) && |Last(run).line.replies| < |Last(run).line.commands|
    ensures IsRun(longer) && run < longer
    ensures var s := Last(run); var l := s.line;
      Last(longer) == s.(line := l.(replies := Last(longer).line.replies, incoming := Last(longer).line.incoming))
      && |Last(longer).line.replies| == |l.replies| + 1
  {
    assert run != [];
    hide IsRun, IsReply, NullReply, FrameOutcome;
    var k := Last(run).line.commands[|Last(run).line.replies|];
    NullReplyIsReply(k);
    longer := Extend(run, Answer(NullReply(k)));
  }

  lemma ReceiveStep(s: State)
    requires Inv(s) && s.line.incoming != []
    ensures Enabled(s, Receive)
    ensures var t, l := Apply(s, Receive), s.line;
      && l.received <= |l.replies| <= |l.commands|
      && t.phase == s.phase && t.results == s.results && t.timedOut == s.timedOut
      && t.line.commands == l.commands && t.line.replies == l.replies && |t.line.incoming| < |l.incoming|
      && if l.incoming[0].Scan? then t.slot == s.slot && t.line.received == l.received
         else
           && t.line.received == l.received + 1 <= |l.replies|
           && if IsScanKind(l.commands[l.received]) then t.slot == s.slot
              else t.slot.ready && t.slot.source == Some(l.received)
  {
    hide IsScan, IsReply, DecodedReply, InOrder, IsScanKind, FrameOutcome, Taken, SlotInv, PhaseInv, AllResults, OnTime;
    FirstInOrder(s.line);
    TakenMeaning(s.slot, s.line);
  }

  lemma LineFacts(s: State)
    requires Inv(s)
    ensures s.line.received <= |s.line.replies| <= |s.line.commands|
    ensures s.line.incoming == [] ==> s.line.received == |s.line.replies|
    ensures s.phase.Waiting? ==>
      && s.line.commands != [] && s.line.commands[|s.line.commands| - 1] == s.phase.command
      && s.phase.mark <= s.line.received && s.phase.mark < |s.line.commands|
      && (s.slot.ready <==> !Silent(s.line.commands, s.phase.mark, s.line.received))
  {
    hide IsReply, InOrder, SlotInv, AllResults, OnTime;
    NothingIncoming(s.line.incoming, s.line.received, s.line.replies);
  }

  // Everything up to the first reply that fills the slot can be answered and received.
  lemma {:induction false} Drain(run: seq<State>, j: nat) returns (longer: seq<State>)
    requires IsRun(run)
    requires var s := Last(run);
      && s.phase.Waiting? && !s.slot.ready && s.line.received <= j < |s.line.commands|
      && !IsScanKind(s.line.commands[j]) && Silent(s.line.commands, s.line.received, j)
    ensures IsRun(longer) && run < longer
    ensures var s, t := Last(run), Last(longer);
      && t.phase == s.phase && t.results == s.results && t.timedOut == s.timedOut
      && t.line.commands == s.line.commands && t.line.received == j + 1
      && t.slot.ready && t.slot.source == Some(j)
    decreases if |Last(run).line.replies| <= j then j + 1 - |Last(run).line.replies| else 0, |Last(run).line.incoming|
  {
    assert run != [];
    hide IsRun, IsScanKind, Silent, Inv, Apply, Enabled;
    var s := Last(run);
    RunKeepsInv(run, |run| - 1);
    LineFacts(s);
    if s.line.incoming == [] {
      var next := DeviceAnswers(run);
      longer := Drain(next, j);
    } else {
      ReceiveStep(s);
      var next := Extend(run, Receive);
      SilentTail(s.line.commands, s.line.received, j);
      if s.line.incoming[0].Reply? && s.line.received == j {
        longer := next;
      } else {
        longer := Drain(next, j);
      }
    }
  }

  lemma SilentTail(commands: seq<Kind>, lo: nat, hi: nat)
    requires Silent(commands, lo, hi)
    ensures Silent(commands, lo + 1, hi)
    ensures lo < hi ==> IsScanKind(commands[lo])
  {
  }

  // The first command from lo on whose reply fills the slot.
  lemma {:induction false} FirstFilling(commands: seq<Kind>, lo: nat, hi: nat) returns (j: nat)
    requires hi <= |commands| && !Silent(commands, lo, hi)
    ensures lo <= j < hi && !IsScanKind(commands[j]) && Silent(commands, lo, j)
    decreases hi - lo
  {
    hide IsScanKind;
    if IsScanKind(commands[lo]) {
      j := FirstFilling(commands, lo + 1, hi);
    } else {
      j := lo;
    }
  }

  // ----- exactly when a wait can end, and when its outcome is certain -----

  // The same wait goes on up to the last step of longer, which ends it with a value.
  ghost predicate Returns(run: seq<State>, longer: seq<State>)
    requires run != []
  {
    && IsRun(longer) && run < longer
    && var s, t := Last(run), longer[|longer| - 2];
       && t.phase == s.phase && t.line.commands == s.line.commands && Last(longer).results != t.results
  }

  // From a state of any run, a wait can end if and only if a reply that fills the slot is
  // due since the flag was cleared.
  lemma WaitCanEnd(run: seq<State>)
    requires IsRun(run) && Last(run).phase.Waiting?
    ensures (exists longer: seq<State> :: Returns(run, longer)) <==>
      !Silent(Last(run).line.commands, Last(run).phase.mark, |Last(run).line.commands|)
  {
    hide IsScanKind, IsReply, IsScan, Silent, Returns, Apply, Enabled;
    if !Silent(Last(run).line.commands, Last(run).phase.mark, |Last(run).line.commands|) {
      var longer := EndWait(run);
    }
    forall longer: seq<State> | Returns(run, longer)
      ensures !Silent(Last(run).line.commands, Last(run).phase.mark, |Last(run).line.commands|)
    {
      ReturnedSound(run, longer);
    }
  }

  lemma ReturnedSound(run: seq<State>, longer: seq<State>)
    requires run != [] && Returns(run, longer) && Last(run).phase.Waiting?
    ensures !Silent(Last(run).line.commands, Last(run).phase.mark, |Last(run).line.commands|)
  {
    hide IsScanKind, IsReply, IsScan, Silent, Inv, Apply, Enabled, IsRun;
    ReturnedReady(longer);
    var t: State := longer[|longer| - 2];
    RunKeepsInv(longer, |longer| - 2);
    LineFacts(t);
    if Silent(t.line.commands, t.phase.mark, |t.line.commands|) {
      SilentPart(t.line.commands, t.phase.mark, t.line.received, |t.line.commands|);
    }
  }

  lemma SilentPart(commands: seq<Kind>, lo: nat, mid: nat, hi: nat)
    requires Silent(commands, lo, hi) && mid <= hi
    ensures Silent(commands, lo, mid) && (lo <= mid ==> Silent(commands, mid, hi))
  {
  }

  lemma ReturnedReady(run: seq<State>)
    requires IsRun(run) && |run| >= 2 && Last(run).results != run[|run| - 2].results
    ensures run[|run| - 2].slot.ready && run[|run| - 2].phase.Waiting?
  {
    hide FrameOutcome, IsReply, IsScan, Taken;
    var t := run[|run| - 2];
    assert Next(t, run[|run| - 2 + 1]);
  }

  // Ended by the first reply still to come that fills the slot.
  ghost predicate EndedBy(s: State, t: State, j: nat)
  {
    && s.phase.Waiting? && s.line.commands != [] && t.phase.Idle?
    && t.timedOut == s.timedOut && t.line.commands == s.line.commands
    && |t.results| == |s.results| + 1 && t.results[..|s.results|] == s.results
    && var r := t.results[|s.results|];
       r.command == |s.line.commands| - 1 && r.mark == s.phase.mark && r.source == Some(j)
  }

  lemma EndUnready(run: seq<State>, j: nat) returns (longer: seq<State>)
    requires IsRun(run)
    requires var s := Last(run);
      && s.phase.Waiting? && !s.slot.ready && s.line.received <= j < |s.line.commands|
      && !IsScanKind(s.line.commands[j]) && Silent(s.line.commands, s.line.received, j)
    ensures Returns(run, longer) && EndedBy(Last(run), Last(longer), j)
  {
    assert run != [];
    hide IsRun, IsScanKind, Silent, FrameOutcome, Taken, Front, ReplySize;
    var drained := Drain(run, j);
    var s, t := Last(run), Last(drained);
    longer := Extend(drained, Return);
    assert longer[|longer| - 2] == t;
  }

  lemma EndReady(run: seq<State>) returns (longer: seq<State>)
    requires IsRun(run) && Last(run).phase.Waiting? && Last(run).slot.ready && Last(run).line.commands != []
    ensures Returns(run, longer)
  {
    assert run != [];
    hide IsRun, Front, ReplySize;
    longer := Extend(run, Return);
    assert longer[|longer| - 2] == Last(run);
  }

  lemma EndWait(run: seq<State>) returns (longer: seq<State>)
    requires IsRun(run) && Last(run).phase.Waiting?
    requires !Silent(Last(run).line.commands, Last(run).phase.mark, |Last(run).line.commands|)
    ensures Returns(run, longer)
  {
    hide IsScanKind, IsReply, IsScan, Silent, Inv, EndedBy, Returns, Apply, Enabled;
    var s := Last(run);
    RunKeepsInv(run, |run| - 1);
    LineFacts(s);
    if s.slot.ready {
      longer := EndReady(run);
    } else {
      var n := |s.line.commands|;
      if Silent(s.line.commands, s.line.received, n) {
        SilentJoin(s.line.commands, s.phase.mark, s.line.received, n);
      }
      var j := FirstFilling(s.line.commands, s.line.received, n);
      longer := EndUnready(run, j);
    }
  }

  lemma SilentJoin(commands: seq<Kind>, lo: nat, mid: nat, hi: nat)
    requires Silent(commands, lo, mid) && Silent(commands, mid, hi)
    ensures Silent(commands, lo, hi)
  {
  }

  // ----- exactly when the outcome is certain -----

  // A value returned to command c, begun at mark, comes from another reply than its own.
  ghost predicate Mistakes(run: seq<State>, j: nat, c: nat, mark: nat)
  {
    && IsRun(run) && j < |Last(run).results|
    && var r := Last(run).results[j]; r.command == c && r.mark == mark && r.source != Some(c)
  }

  // However the run goes on after command k is begun, only its own reply is returned to it.
  ghost predicate Certain(run: seq<State>, k: Kind)
    requires run != []
  {
    forall longer: seq<State>, j: nat ::
      run + [Begun(Last(run), k)] <= longer ==>
        !Mistakes(longer, j, |Last(run).line.commands|, Last(run).line.received)
  }

  lemma {:induction false} CommandsGrow(run: seq<State>, i: nat, j: nat)
    requires IsRun(run) && i <= j < |run|
    ensures run[i].line.commands <= run[j].line.commands
    decreases j
  {
    hide FrameOutcome, Taken, IsReply, IsScan;
    if i < j {
      CommandsGrow(run, i, j - 1);
      assert Next(run[j - 1], run[j - 1 + 1]);
    }
  }

  // Before a command is begun, it is certain to get its own reply, or none, if and only if
  // no reply that fills the slot is outstanding.
  lemma OwnReplyCertain(run: seq<State>, k: Kind)
    requires IsRun(run) && Last(run).phase.Idle?
    ensures Certain(run, k) <==>
      Silent(Last(run).line.commands, Last(run).line.received, |Last(run).line.commands|)
  {
    assert run != [];
    hide IsScanKind, IsReply, IsScan, Silent, Apply, Enabled, IsRun, Mistakes;
    var l := Last(run).line;
    if Silent(l.commands, l.received, |l.commands|) {
      forall longer: seq<State>, j: nat | run + [Begun(Last(run), k)] <= longer
        ensures !Mistakes(longer, j, |l.commands|, l.received)
      {
        NoMistake(run, longer, j);
      }
    } else {
      var longer, j := Mistaken(run, k);
      assert Mistakes(longer, j, |l.commands|, l.received);
    }
  }

  lemma NoMistake(run: seq<State>, longer: seq<State>, j: nat)
    requires run != [] && run < longer
    requires Silent(Last(run).line.commands, Last(run).line.received, |Last(run).line.commands|)
    ensures !Mistakes(longer, j, |Last(run).line.commands|, Last(run).line.received)
  {
    hide IsScanKind, IsReply, IsScan, Silent, IsRun, DecodedReply;
    var l := Last(run).line;
    if Mistakes(longer, j, |l.commands|, l.received) {
      CommandsGrow(longer, |run| - 1, |longer| - 1);
      var more := Last(longer).line.commands;
      SilentStays(l.commands, more[|l.commands|..], l.received, |l.commands|);
      assert l.commands + more[|l.commands|..] == more;
      OwnReply(longer, |longer| - 1, j);
    }
  }

  // Command k is sent.
  lemma SendCommand(run: seq<State>, k: Kind) returns (longer: seq<State>)
    requires IsRun(run) && Last(run).phase.Idle?
    ensures IsRun(longer) && run + [Begun(Last(run), k)] < longer && |longer| == |run| + 2
    ensures Last(longer) == var s := Last(run);
      s.(phase := Waiting(k, s.line.received), slot := s.slot.(ready := false),
         line := s.line.(commands := s.line.commands + [k]))
  {
    assert run != [];
    hide IsRun;
    var begun := Extend(run, Begin(k));
    longer := Extend(begun, Send);
  }

  lemma Mistaken(run: seq<State>, k: Kind) returns (longer: seq<State>, j: nat)
    requires IsRun(run) && Last(run).phase.Idle?
    requires !Silent(Last(run).line.commands, Last(run).line.received, |Last(run).line.commands|)
    ensures run + [Begun(Last(run), k)] <= longer
    ensures Mistakes(longer, j, |Last(run).line.commands|, Last(run).line.received)
  {
    assert run != [];
    hide IsScanKind, IsReply, IsScan, Silent, Apply, Enabled, IsRun, Inv;
    var l := Last(run).line;
    RunKeepsInv(run, |run| - 1);
    LineFacts(Last(run));
    var i := FirstFilling(l.commands, l.received, |l.commands|);
    var sent := SendCommand(run, k);
    SilentStays(l.commands, [k], l.received, i);
    longer := EndUnready(sent, i);
    j := |Last(run).results|;
  }

  // ----- the same waits can end well -----

  // The device can answer everything and the host receive everything.
  lemma {:induction false} CatchUp(run: seq<State>) returns (longer: seq<State>)
    requires IsRun(run)
    ensures IsRun(longer) && run <= longer
    ensures var s, t := Last(run), Last(longer);
      && t.phase == s.phase && t.results == s.results && t.timedOut == s.timedOut
      && t.line.commands == s.line.commands && |t.line.replies| == |t.line.commands| && t.line.incoming == []
    decreases |Last(run).line.commands| - |Last(run).line.replies|, |Last(run).line.incoming|
  {
    assert run != [];
    hide IsRun, IsScanKind, Inv, Apply, Enabled;
    var s := Last(run);
    RunKeepsInv(run, |run| - 1);
    LineFacts(s);
    longer := run;
    if s.line.incoming != [] {
      ReceiveStep(s);
      var next := Extend(run, Receive);
      longer := CatchUp(next);
    } else if |s.line.replies| < |s.line.commands| {
      var next := DeviceAnswers(run);
      longer := CatchUp(next);
    }
  }

  lemma ReturnStep(s: State)
    requires Enabled(s, Return)
    ensures var t := Apply(s, Return); t.phase.Idle? && t.line == s.line && t.timedOut == s.timedOut
  {
  }

  // t has returned, to the command s waits for, the decoding of its own reply.
  ghost predicate GotOwn(s: State, t: State)
  {
    && s.phase.Waiting? && t.phase.Idle? && t.timedOut == s.timedOut
    && s.line.commands != [] && t.line.commands == s.line.commands && |t.line.replies| == |s.line.commands|
    && var k, c := s.phase.command, |s.line.commands| - 1;
       && IsReply(k, t.line.replies[c])
       && t.results == s.results + [Result(c, s.phase.mark, c + 1, Some(c), DecodedReply(k, t.line.replies[c]))]
  }

  lemma OwnStep(run: seq<State>)
    requires IsRun(run) && Last(run).phase.Waiting? && !IsScanKind(Last(run).phase.command)
    requires |Last(run).line.replies| == |Last(run).line.commands| && Last(run).line.incoming == []
    ensures Enabled(Last(run), Return) && GotOwn(Last(run), Apply(Last(run), Return))
  {
    hide IsScanKind, IsReply, IsScan, DecodedReply, Silent, Enabled, Inv, Apply;
    var s := Last(run);
    RunKeepsInv(run, |run| - 1);
    LineFacts(s);
    WaitAnswered(run, |run| - 1);
    ReturnStep(s);
  }

  lemma TakeOwn(run: seq<State>) returns (longer: seq<State>)
    requires IsRun(run) && Last(run).phase.Waiting? && !IsScanKind(Last(run).phase.command)
    requires |Last(run).line.replies| == |Last(run).line.commands| && Last(run).line.incoming == []
    ensures IsRun(longer) && run < longer && GotOwn(Last(run), Last(longer))
  {
    assert run != [];
    hide IsRun, IsScanKind, GotOwn, Enabled, Apply;
    OwnStep(run);
    longer := Extend(run, Return);
  }

  // Whatever is outstanding, a command whose reply fills the slot can get its own reply.
  lemma OwnReplyPossible(run: seq<State>) returns (longer: seq<State>)
    requires IsRun(run) && Last(run).phase.Waiting? && !IsScanKind(Last(run).phase.command)
    ensures IsRun(longer) && run < longer && GotOwn(Last(run), Last(longer))
  {
    assert run != [];
    hide IsRun, IsScanKind, IsReply, DecodedReply;
    var caught := CatchUp(run);
    longer := TakeOwn(caught);
  }

  // A run of one command that returns, for every command not answered by a scan.
  lemma NormalRun(k: Kind, s0: State) returns (run: seq<State>)
    requires Initial(s0) && !IsScanKind(k)
    ensures IsRun(run) && !Last(run).timedOut && Last(run).line.commands == [k] && |Last(run).line.replies| == 1
    ensures var reply := Last(run).line.replies[0];
      IsReply(k, reply) && Last(run).results == [Result(0, 0, 1, Some(0), DecodedReply(k, reply))]
  {
    hide IsRun, IsScanKind, IsReply, DecodedReply, Apply;
    Start(s0);
    var sent := SendCommand([s0], k);
    run := OwnReplyPossible(sent);
  }

  // A run in which AR06 has been answered and everything received, and the wait goes on.
  lemma StuckRun(s0: State) returns (run: seq<State>)
    requires Initial(s0)
    ensures IsRun(run) && !Last(run).timedOut && Last(run).line.commands == [AR06] && Last(run).line.incoming == []
    ensures Last(run).phase == Waiting(AR06, 0)
    ensures |Last(run).line.replies| == 1 && IsReply(AR06, Last(run).line.replies[0])
    ensures !Last(run).slot.ready && !Enabled(Last(run), Return)
  {
    hide IsReply, Apply, IsScan, Enabled;
    Start(s0);
    var sent := SendCommand([s0], AR06);
    run := CatchUp(sent);
    RunKeepsInv(run, |run| - 1);
    StopOfAr07NeverReturns(run, |run| - 1);
  }

  // Command k times out unanswered and command l is sent.
  lemma TimedOutRun(k: Kind, l: Kind, s0: State) returns (run: seq<State>)
    requires Initial(s0)
    ensures IsRun(run) && |run| > 3 && run[2].phase == Waiting(k, 0) && run[3].phase.Idle? && run[3].timedOut
    ensures Last(run) == s0.(phase := Waiting(l, 0), slot := s0.slot.(ready := false),
                             line := Line([k, l], [], 0, []), timedOut := true)
  {
    Start(s0);
    hide IsRun;
    run := SendCommand([s0], k);
    run := Extend(run, TimeOut);
    run := SendCommand(run, l);
    assert [k] + [l] == [k, l];
  }

  // The same after a send that has timed out and goes out all the same.
  lemma TimedOutSend(k: Kind, l: Kind, s0: State) returns (run: seq<State>)
    requires Initial(s0)
    ensures IsRun(run) && |run| > 3 && run[1].phase == Cleared(k, 0) && run[2].phase.Idle? && run[2].timedOut
    ensures Last(run) == s0.(phase := Waiting(l, 0), slot := s0.slot.(ready := false),
                             line := Line([k, l], [], 0, []), timedOut := true)
  {
    Start(s0);
    hide IsRun;
    run := Extend([s0], Begin(k));
    run := Extend(run, SendTimesOut);
    run := SendCommand(run, l);
    assert [k] + [l] == [k, l];
  }

  // Command 1 has been given the reply to command 0, and no reply to command 1 would have
  // been decoded to that value.
  ghost predicate Mistaken01(s: State, k: Kind, l: Kind)
  {
    && s.line.commands == [k, l] && |s.results| == 1
    && s.results[0].command == 1 && s.results[0].source == Some(0)
    && forall f :: IsReply(l, f) ==> s.results[0].value != DecodedReply(l, f)
  }

  lemma MistakenAfter(sent: seq<State>, k: Kind, l: Kind) returns (run: seq<State>)
    requires !IsScanKind(k) && !IsScanKind(l) && k != l && IsRun(sent)
    requires Last(sent).phase == Waiting(l, 0) && !Last(sent).slot.ready && Last(sent).results == []
    requires Last(sent).line == Line([k, l], [], 0, [])
    ensures IsRun(run) && sent < run && Mistaken01(Last(run), k, l)
  {
    hide IsRun, IsScanKind, IsReply, DecodedReply, Inv, Enabled, Apply;
    NothingSilent([k, l], 0);
    run := EndUnready(sent, 0);
    RunKeepsInv(run, |run| - 1);
    WrongCode(Last(run), 0, k, l);
  }

  // After the wait for a command has timed out, its late reply is returned for the next.
  lemma LateReplyMistaken(k: Kind, l: Kind, s0: State) returns (run: seq<State>)
    requires !IsScanKind(k) && !IsScanKind(l) && k != l && Initial(s0)
    ensures IsRun(run) && |run| > 3 && run[2].phase == Waiting(k, 0) && run[3].phase.Idle? && run[3].timedOut
    ensures Mistaken01(Last(run), k, l)
  {
    hide IsRun, IsScanKind, Mistaken01;
    var sent := TimedOutRun(k, l, s0);
    run := MistakenAfter(sent, k, l);
  }

  // After a send has timed out that goes out all the same, too.
  lemma LateSendMistaken(k: Kind, l: Kind, s0: State) returns (run: seq<State>)
    requires !IsScanKind(k) && !IsScanKind(l) && k != l && Initial(s0)
    ensures IsRun(run) && |run| > 3 && run[1].phase == Cleared(k, 0) && run[2].phase.Idle? && run[2].timedOut
    ensures Mistaken01(Last(run), k, l)
  {
    hide IsRun, IsScanKind, Mistaken01;
    var sent := TimedOutSend(k, l, s0);
    run := MistakenAfter(sent, k, l);
  }

  // The same two commands can end well: the first reply is received late, but the second
  // too before the waiting thread runs. So the condition of OwnReplyCertain decides what is
  // certain when a command is begun, not what one run happens to return.
  lemma LateReplyHarmless(k: Kind, l: Kind, s0: State) returns (run: seq<State>)
    requires !IsScanKind(k) && !IsScanKind(l) && Initial(s0)
    ensures IsRun(run) && Last(run).line.commands == [k, l] && |Last(run).line.replies| == 2
    ensures !Silent([k, l], 0, 1) && IsReply(l, Last(run).line.replies[1])
    ensures Last(run).results == [Result(1, 0, 2, Some(1), DecodedReply(l, Last(run).line.replies[1]))]
  {
    hide IsRun, IsScanKind, IsReply, DecodedReply;
    var sent := TimedOutRun(k, l, s0);
    assert !IsScanKind([k, l][0]);
    run := OwnReplyPossible(sent);
  }

  lemma WrongCode(s: State, j: nat, k: Kind, l: Kind)
    requires Inv(s) && j < |s.results| && k != l
    requires var r := s.results[j];
      && r.command < |s.line.commands| && s.line.commands[r.command] == l
      && r.source.Some? && r.source.value < |s.line.commands| && s.line.commands[r.source.value] == k
    ensures forall f :: IsReply(l, f) ==> s.results[j].value != DecodedReply(l, f)
  {
    hide IsReply, DecodedReply, HasCode, ReplySize, InOrder, Silent, SlotInv, PhaseInv, OnTime;
    var r := s.results[j];
    assert ResultInv(s.line, r);
    var f0 := s.line.replies[r.source.value];
    var reply := DecodedReply(k, f0);
    CodeKept(k, f0);
    SameCode(reply, r.value, k);
    CodesDiffer(r.value);
    forall f | IsReply(l, f) ensures r.value != DecodedReply(l, f) {
      CodeKept(l, f);
    }
  }

  lemma SameCode(a: seq<byte>, b: seq<byte>, k: Kind)
    requires |a| >= HEADER_SIZE && |b| >= HEADER_SIZE && Front(a, |b|) == Front(b, |a|)
    ensures HasCode(a, k) == HasCode(b, k)
  {
    hide Code;
    if |a| <= |b| {
      assert a == b[..|a|] && b[..|a|][5..9] == b[5..9];
    } else {
      assert b == a[..|b|] && a[..|b|][5..9] == a[5..9];
    }
  }
}
