// TcpClient: cutting the byte stream of the socket into frames.
module Framing {
  import opened Wrappers
  import opened Protocol
  import opened Decoding
  import opened PacketWorker

  // ----- the simple form: cutting a whole stream at once -----

  // frames: what the data callback gets, in order; skipped: headers read and dropped;
  // partial: the beginning of a frame that has not fully arrived; overrun: a size field
  // below the header size, for which the length of the second read underflows and nothing
  // more can be said.
  datatype Cut = Cut(frames: seq<seq<byte>>, skipped: nat, partial: seq<byte>, overrun: bool)

  // handleReceive goes on to read the rest of a frame only behind such a header.
  predicate GoodHeader(bytes: seq<byte>)
    requires |bytes| >= HEADER_SIZE
  {
    && KnownHeader(bytes)
    && Parsed(bytes, CMD_SIZE).Some?
    && Parsed(bytes, CMD_SIZE).value <= PACKET_SIZE
  }

  function FrameSize(bytes: seq<byte>): (n: nat)
    requires |bytes| >= HEADER_SIZE && GoodHeader(bytes)
    ensures n <= PACKET_SIZE
  {
    Parsed(bytes, CMD_SIZE).value
  }

  function CutStream(stream: seq<byte>): Cut
    decreases |stream|
  {
    if |stream| < HEADER_SIZE then Cut([], 0, stream, false)
    else if !GoodHeader(stream) then
      var rest := CutStream(stream[HEADER_SIZE..]);
      rest.(skipped := rest.skipped + 1)
    else
      var n := FrameSize(stream);
      if n < HEADER_SIZE then Cut([], 0, stream, true)
      else if |stream| < n then Cut([], 0, stream, false)
      else
        var rest := CutStream(stream[n..]);
        rest.(frames := [stream[..n]] + rest.frames)
  }

  function Join(a: Cut, b: Cut): Cut
  {
    Cut(a.frames + b.frames, a.skipped + b.skipped, b.partial, b.overrun)
  }

  lemma HeaderDecides(p: seq<byte>, q: seq<byte>)
    requires HEADER_SIZE <= |p| && HEADER_SIZE <= |q| && p[..HEADER_SIZE] == q[..HEADER_SIZE]
    ensures GoodHeader(p) == GoodHeader(q)
    ensures GoodHeader(p) ==> FrameSize(p) == FrameSize(q)
  {
    hide Parsed;
    assert p[5..7] == p[..HEADER_SIZE][5..7] == q[5..7];
    assert Slice(p, CMD_SIZE) == p[..HEADER_SIZE][1..5] == Slice(q, CMD_SIZE);
    ParsedSlice(p, q, CMD_SIZE);
  }

  // A stream can be cut as it arrives: what is left of one part goes in front of the next.
  lemma {:induction false} CutMore(a: seq<byte>, b: seq<byte>)
    requires !CutStream(a).overrun
    ensures CutStream(a + b) == Join(CutStream(a), CutStream(CutStream(a).partial + b))
    decreases |a|
  {
    hide GoodHeader, FrameSize;
    var rest := CutStream(CutStream(a).partial + b);
    if |a| < HEADER_SIZE {
      assert [] + rest.frames == rest.frames;
    } else {
      HeaderDecides(a, a + b);
      var n := if GoodHeader(a) then FrameSize(a) else HEADER_SIZE;
      if n <= |a| {
        assert (a + b)[n..] == a[n..] + b && (a + b)[..n] == a[..n];
        CutMore(a[n..], b);
        var tail := CutStream(a[n..]);
        assert [a[..n]] + (tail.frames + rest.frames) == [a[..n]] + tail.frames + rest.frames;
      } else {
        assert [] + rest.frames == rest.frames;
      }
    }
  }

  // Nothing is lost, repeated or reordered: frames, dropped headers and the partial frame
  // make up the stream, and every frame or dropped header accounts for 11 bytes or more.
  function TotalLength(frames: seq<seq<byte>>): nat
  {
    if frames == [] then 0 else |frames[0]| + TotalLength(frames[1..])
  }

  lemma {:induction false} Conservation(stream: seq<byte>)
    ensures var c := CutStream(stream);
      TotalLength(c.frames) + HEADER_SIZE * c.skipped + |c.partial| == |stream|
    ensures forall i :: 0 <= i < |CutStream(stream).frames| ==> WellSized(CutStream(stream).frames[i])
    decreases |stream|
  {
    if |stream| >= HEADER_SIZE {
      var n := if GoodHeader(stream) then FrameSize(stream) else HEADER_SIZE;
      if HEADER_SIZE <= n <= |stream| {
        Conservation(stream[n..]);
        if GoodHeader(stream) {
          HeaderDecides(stream, stream[..n]);
          var rest := CutStream(stream[n..]);
          assert ([stream[..n]] + rest.frames)[1..] == rest.frames;
        }
      }
    }
  }

  function Flatten(parts: seq<seq<byte>>): seq<byte>
  {
    if parts == [] then [] else Flatten(parts[..|parts| - 1]) + parts[|parts| - 1]
  }

  predicate KnownFrame(frame: seq<byte>)
  {
    WellSized(frame) && KnownHeader(frame)
  }

  // A stream made of frames is cut into exactly those frames.
  lemma {:induction false} CutFrames(frames: seq<seq<byte>>)
    requires forall i :: 0 <= i < |frames| ==> KnownFrame(frames[i])
    ensures CutStream(Flatten(frames)) == Cut(frames, 0, [], false)
  {
    hide Parsed, KnownHeader;
    if frames != [] {
      var n := |frames| - 1;
      var last := frames[n];
      CutFrames(frames[..n]);
      CutMore(Flatten(frames[..n]), last);
      assert [] + last == last;
      assert last[|last|..] == [] && last[..|last|] == last;
      assert GoodHeader(last) && FrameSize(last) == |last|;
      assert CutStream(last) == Cut([last], 0, [], false);
      assert frames[..n] + [last] == frames;
    }
  }

  // Eleven bytes that do not start the read of a frame.
  predicate IsJunk(bytes: seq<byte>)
  {
    |bytes| == 11 && !GoodHeader(bytes)
  }

  predicate FrameOrJunk(item: seq<byte>)
  {
    KnownFrame(item) || IsJunk(item)
  }

  function FramesAmong(items: seq<seq<byte>>): (frames: seq<seq<byte>>)
    ensures |frames| <= |items|
  {
    if items == [] then []
    else
      FramesAmong(items[..|items| - 1])
      + if KnownFrame(items[|items| - 1]) then [items[|items| - 1]] else []
  }

  // Of frames and stretches of eleven bytes of junk, in any order, exactly the frames are
  // delivered, and the junk is dropped without a trace.
  lemma {:induction false} CutAmongJunk(items: seq<seq<byte>>)
    requires forall i :: 0 <= i < |items| ==> FrameOrJunk(items[i])
    ensures CutStream(Flatten(items))
         == Cut(FramesAmong(items), |items| - |FramesAmong(items)|, [], false)
  {
    hide Parsed, KnownHeader;
    if items != [] {
      var n := |items| - 1;
      var last := items[n];
      assert FrameOrJunk(last);
      CutAmongJunk(items[..n]);
      CutMore(Flatten(items[..n]), last);
      assert [] + last == last;
      assert last[|last|..] == [] && last[..|last|] == last;
      assert KnownFrame(last) ==> GoodHeader(last) && FrameSize(last) == |last|;
      assert CutStream(last) == if KnownFrame(last) then Cut([last], 0, [], false) else Cut([], 1, [], false);
    }
  }

  // ----- the code: reads that complete after any number of chunks -----

  // The composed read that is under way.
  datatype Read =
    | NoRead
    | HeaderRead
    | RestRead(missing: nat)

  class TcpClient {
    var connected: bool
    var stopped: bool
    const receiveBuffer: ShapeShifterPacket

    var read: Read
    var transferred: nat           // bytes the read has stored so far
    var packets: seq<seq<byte>>    // the buffer as each run of the data callback saw it
    var overrun: bool

    ghost var stream: seq<byte>    // bytes taken from the socket since reading (re)started
    ghost var mark: nat            // packets delivered before that

    function Wanted(): nat
      reads this
    {
      if read.RestRead? then read.missing else HEADER_SIZE
    }

    function Offset(): nat
      reads this
    {
      if read.RestRead? then HEADER_SIZE else 0
    }

    // The buffer holds the partial frame of the stream received so far, and the callback
    // has been given its frames.
    ghost predicate Follows(s: seq<byte>)
      reads this, receiveBuffer, receiveBuffer.raw
    {
      var c := CutStream(s);
      && receiveBuffer.Valid()
      && !read.NoRead?
      && !c.overrun
      && transferred < Wanted() && Offset() + Wanted() <= PACKET_SIZE
      && receiveBuffer.raw[..Offset() + transferred] == c.partial
      && (read.RestRead? ==>
          GoodHeader(receiveBuffer.raw[..]) && FrameSize(receiveBuffer.raw[..]) == HEADER_SIZE + read.missing)
      && |packets| == mark + |c.frames|
      && forall i :: 0 <= i < |c.frames| ==> Holds(packets[mark + i], c.frames[i])
    }

    // Between events: a connected client reads exactly when it is not stopped.
    ghost predicate Valid()
      reads this, receiveBuffer, receiveBuffer.raw
    {
      && receiveBuffer.Valid()
      && (!connected ==> stopped)
      && (connected ==> (stopped <==> read.NoRead?))
      && (!overrun && !read.NoRead? ==> Follows(stream))
    }

    constructor ()
      ensures Valid() && !connected && stopped && read.NoRead? && packets == [] && !overrun
      ensures fresh(receiveBuffer) && fresh(receiveBuffer.raw)
    {
      connected, stopped := false, true;
      receiveBuffer := new ShapeShifterPacket();
      read, transferred, packets, overrun := NoRead, 0, [], false;
      stream, mark := [], 0;
    }

    method AsyncReadData()
      modifies this`stopped, this`read, this`transferred
      ensures connected ==> stopped == old(stopped) && read == HeaderRead && transferred == 0
      ensures !connected ==> stopped && read == NoRead
    {
      if !connected {
        stopped := true;
        read := NoRead;
        return;
      }
      read, transferred := HeaderRead, 0;
    }

    method StartAsyncReadTask() returns (started: bool)
      requires Valid()
      modifies this
      ensures Valid() && started == connected == old(connected)
      ensures connected ==> !stopped
      ensures packets == old(packets) && overrun == old(overrun)
      ensures connected && old(stopped) ==> stream == [] && mark == |packets|
      ensures !(connected && old(stopped)) ==> stream == old(stream) && mark == old(mark)
    {
      if !connected {
        return false;
      }
      if !stopped {
        return true;
      }
      stream, mark := [], |packets|;
      AsyncReadData();
      stopped := false;
      return true;
    }

    // A read that fails or is aborted gives up its partial frame.
    method OnError()
      requires Valid() && !read.NoRead?
      modifies this
      ensures Valid() && connected == old(connected)
      ensures packets == old(packets) && overrun == old(overrun)
      ensures if connected then stopped == old(stopped) && read == HeaderRead else stopped && read == NoRead
      ensures stream == [] && mark == |packets|
    {
      stream, mark := [], |packets|;
      AsyncReadData();
    }

    method Disconnect()
      requires Valid()
      modifies this`connected, this`stopped
      ensures Valid() && !connected && stopped
    {
      if connected {
        connected := false;
        stopped := true;
      }
    }

    // accepted and optionSet: how connecting the socket and setting its option go. An
    // aborted read runs to its end before the new connection is used.
    method Connect(accepted: bool, optionSet: bool) returns (ok: bool)
      requires Valid()
      modifies this
      ensures Valid() && ok == connected == (accepted && optionSet)
      ensures stopped && read == NoRead
      ensures packets == old(packets) && overrun == old(overrun)
    {
      if connected {
        Disconnect();
      }
      if !read.NoRead? {
        OnError();
      }
      if !accepted {
        return false;
      }
      connected := true;
      if !optionSet {
        Disconnect();
        return false;
      }
      return true;
    }

    // One transfer of a composed read: bytes of the socket go to the next free place.
    method Store(data: seq<byte>)
      requires receiveBuffer.Valid() && Offset() + transferred + |data| <= PACKET_SIZE
      modifies this`transferred, receiveBuffer.raw
      ensures transferred == old(transferred) + |data|
      ensures receiveBuffer.raw[..Offset() + transferred] == old(receiveBuffer.raw[..Offset() + transferred]) + data
    {
      var raw, base := receiveBuffer.raw, Offset() + transferred;
      for i := 0 to |data|
        invariant transferred == old(transferred)
        invariant raw[..base] == old(raw[..base])
        invariant raw[base..base + i] == data[..i]
      {
        raw[base + i] := data[i];
      }
      transferred := transferred + |data|;
    }

    // The header has arrived.
    method HandleReceive()
      requires receiveBuffer.Valid() && connected && !read.NoRead?
      modifies this`stopped, this`read, this`transferred, this`overrun
      ensures stopped == old(stopped) && !read.NoRead?
      ensures var header := receiveBuffer.raw[..];
        if !GoodHeader(header) then read == HeaderRead && transferred == 0 && overrun == old(overrun)
        else if FrameSize(header) < HEADER_SIZE then overrun
        else read == RestRead(FrameSize(header) - HEADER_SIZE) && transferred == 0 && overrun == old(overrun)
    {
      var header := receiveBuffer.raw[..];
      if KnownHeader(header) {
        var size := Parsed(header, CMD_SIZE);
        if size.Some? && size.value <= PACKET_SIZE {
          if size.value < HEADER_SIZE {
            overrun := true;
          } else {
            read, transferred := RestRead(size.value - HEADER_SIZE), 0;
          }
          return;
        }
      }
      AsyncReadData();
    }

    // The whole frame has arrived.
    method HandlePacket()
      requires connected
      modifies this`stopped, this`read, this`transferred, this`packets
      ensures packets == old(packets) + [receiveBuffer.raw[..]]
      ensures stopped == old(stopped) && read == HeaderRead && transferred == 0
    {
      packets := packets + [receiveBuffer.raw[..]];
      AsyncReadData();
    }

    // Bytes arrive. However they are grouped, the client ends up as if it had cut the
    // stream as a whole.
    method Receive(chunk: seq<byte>)
      requires Valid() && connected && !stopped && !overrun
      modifies this, receiveBuffer.raw
      ensures Valid() && connected && !stopped
      ensures overrun <==> CutStream(old(stream) + chunk).overrun
      ensures !overrun ==> stream == old(stream) + chunk && mark == old(mark)
      ensures old(packets) <= packets
    {
      hide CutStream, GoodHeader, FrameSize;
      var i := 0;
      assert old(stream) + chunk[..0] == old(stream);
      while i < |chunk| && !overrun
        invariant 0 <= i <= |chunk|
        invariant connected && !stopped && !read.NoRead? && mark == old(mark)
        invariant receiveBuffer.Valid() && old(packets) <= packets
        invariant !overrun ==> Follows(old(stream) + chunk[..i])
        invariant overrun ==> CutStream(old(stream) + chunk[..i]).overrun
        decreases |chunk| - i
      {
        var room := Wanted() - transferred;
        var k := if room < |chunk| - i then room else |chunk| - i;
        ghost var before := old(stream) + chunk[..i];
        assert chunk[..i + k] == chunk[..i] + chunk[i..i + k];
        assert old(stream) + chunk[..i + k] == before + chunk[i..i + k];
        TakeBytes(before, chunk[i..i + k]);
        i := i + k;
      }
      assert chunk[..i] + chunk[i..] == chunk;
      if overrun {
        OverrunStays(old(stream) + chunk[..i], chunk[i..]);
        assert old(stream) + chunk[..i] + chunk[i..] == old(stream) + chunk;
      } else {
        assert chunk[..i] == chunk;
        stream := old(stream) + chunk;
      }
    }

    // Bytes that do not go beyond the read under way, and the handlers they complete.
    method TakeBytes(ghost before: seq<byte>, data: seq<byte>)
      requires Follows(before) && connected && !stopped && !overrun
      requires 0 < |data| <= Wanted() - transferred
      modifies this, receiveBuffer.raw
      ensures connected && !stopped && !read.NoRead? && mark == old(mark) && receiveBuffer.Valid()
      ensures old(packets) <= packets
      ensures !overrun ==> Follows(before + data)
      ensures overrun ==> CutStream(before + data).overrun
    {
      hide CutStream, GoodHeader, FrameSize;
      ghost var raw0 := receiveBuffer.raw[..];
      ghost var c := CutStream(before);
      CutMore(before, data);
      Store(data);
      ghost var now := receiveBuffer.raw[..Offset() + transferred];
      assert now == c.partial + data;
      if read.RestRead? {
        assert now[..HEADER_SIZE] == c.partial[..HEADER_SIZE] == raw0[..HEADER_SIZE];
        HeaderDecides(raw0, now);
      }
      RunHandlers(now);
      if !overrun {
        Delivered(old(packets), packets, mark, c.frames, CutStream(now).frames);
      }
    }

    // The handler of the read under way, if it is complete. now is what the buffer holds
    // of the current frame.
    method RunHandlers(ghost now: seq<byte>)
      requires receiveBuffer.Valid() && connected && !stopped && !overrun && !read.NoRead?
      requires transferred <= Wanted() && Offset() + Wanted() <= PACKET_SIZE
      requires now == receiveBuffer.raw[..Offset() + transferred]
      requires read.RestRead? ==> GoodHeader(now) && FrameSize(now) == HEADER_SIZE + read.missing
      modifies this`stopped, this`read, this`transferred, this`overrun, this`packets
      ensures !stopped && !read.NoRead?
      ensures overrun <==> CutStream(now).overrun
      ensures old(packets) <= packets
      ensures var d := CutStream(now);
        !overrun ==>
          && transferred < Wanted() && Offset() + Wanted() <= PACKET_SIZE
          && receiveBuffer.raw[..Offset() + transferred] == d.partial
          && (read.RestRead? ==>
              GoodHeader(receiveBuffer.raw[..]) && FrameSize(receiveBuffer.raw[..]) == HEADER_SIZE + read.missing)
          && packets == old(packets) + (if d.frames == [] then [] else [receiveBuffer.raw[..]])
          && (d.frames == [] || (|d.frames| == 1 && Holds(receiveBuffer.raw[..], d.frames[0])))
    {
      hide CutStream, GoodHeader, FrameSize;
      ghost var raw := receiveBuffer.raw[..];
      assert now <= raw;
      if read.RestRead? {
        HeaderDecides(raw, now);
        CutRest(now);
      } else {
        CutHeader(now);
        if |now| == HEADER_SIZE {
          HeaderDecides(now, raw);
        }
      }
      if transferred == Wanted() {
        if read.HeaderRead? {
          HandleReceive();
          if !overrun && read == RestRead(0) {
            HandlePacket();
          }
        } else {
          HandlePacket();
        }
      }
    }

    // Any number of chunks of any size.
    method ReceiveAll(chunks: seq<seq<byte>>)
      requires Valid() && connected && !stopped && !overrun
      modifies this, receiveBuffer.raw
      ensures Valid() && connected && !stopped
      ensures overrun <==> CutStream(old(stream) + Flatten(chunks)).overrun
      ensures !overrun ==> stream == old(stream) + Flatten(chunks) && mark == old(mark)
      ensures old(packets) <= packets
    {
      hide CutStream;
      for i := 0 to |chunks|
        invariant Valid() && connected && !stopped && !overrun && mark == old(mark) && old(packets) <= packets
        invariant stream == old(stream) + Flatten(chunks[..i])
      {
        Receive(chunks[i]);
        assert chunks[..i + 1][..i] == chunks[..i];
        assert old(stream) + Flatten(chunks[..i]) + chunks[i] == old(stream) + Flatten(chunks[..i + 1]);
        if overrun {
          FlattenSplit(chunks, i + 1);
          OverrunStays(old(stream) + Flatten(chunks[..i + 1]), Flatten(chunks[i + 1..]));
          assert old(stream) + Flatten(chunks[..i + 1]) + Flatten(chunks[i + 1..])
              == old(stream) + Flatten(chunks);
          return;
        }
      }
      assert chunks[..|chunks|] == chunks;
    }
  }

  // Packets that hold the frames of the stream so far, and those that follow.
  lemma Delivered(before: seq<seq<byte>>, after: seq<seq<byte>>, mark: nat,
                  frames: seq<seq<byte>>, more: seq<seq<byte>>)
    requires |before| == mark + |frames| && |after| == |before| + |more| && before <= after
    requires forall i :: 0 <= i < |frames| ==> Holds(before[mark + i], frames[i])
    requires forall i :: 0 <= i < |more| ==> Holds(after[|before| + i], more[i])
    ensures forall i :: 0 <= i < |frames + more| ==> Holds(after[mark + i], (frames + more)[i])
  {
  }

  // While the header is incomplete, and when it is complete.
  lemma CutHeader(p: seq<byte>)
    requires |p| <= HEADER_SIZE
    ensures |p| < HEADER_SIZE ==> CutStream(p) == Cut([], 0, p, false)
    ensures |p| == HEADER_SIZE ==>
      CutStream(p) == if !GoodHeader(p) then Cut([], 1, [], false)
                      else if FrameSize(p) < HEADER_SIZE then Cut([], 0, p, true)
                      else if FrameSize(p) == HEADER_SIZE then Cut([p], 0, [], false)
                      else Cut([], 0, p, false)
  {
    hide GoodHeader, FrameSize;
    if |p| == HEADER_SIZE {
      assert p[HEADER_SIZE..] == [] && p[..HEADER_SIZE] == p;
    }
  }

  // While the rest of a frame is incomplete, and when it is complete.
  lemma CutRest(p: seq<byte>)
    requires |p| >= HEADER_SIZE && GoodHeader(p) && |p| <= FrameSize(p)
    ensures CutStream(p) == if |p| < FrameSize(p) then Cut([], 0, p, false) else Cut([p], 0, [], false)
  {
    hide GoodHeader, FrameSize;
    assert p[|p|..] == [] && p[..|p|] == p;
  }

  lemma {:induction false} OverrunStays(a: seq<byte>, b: seq<byte>)
    requires CutStream(a).overrun
    ensures CutStream(a + b).overrun
    decreases |a|
  {
    hide GoodHeader, FrameSize;
    HeaderDecides(a, a + b);
    var n := if GoodHeader(a) then FrameSize(a) else HEADER_SIZE;
    if HEADER_SIZE <= n <= |a| {
      assert (a + b)[n..] == a[n..] + b;
      OverrunStays(a[n..], b);
    }
  }

  lemma {:induction false} FlattenSplit(parts: seq<seq<byte>>, k: nat)
    requires k <= |parts|
    ensures Flatten(parts) == Flatten(parts[..k]) + Flatten(parts[k..])
  {
    if k == |parts| {
      assert parts[..k] == parts;
    } else {
      var n := |parts| - 1;
      FlattenSplit(parts[..n], k);
      assert parts[..n][..k] == parts[..k] && parts[..n][k..] == parts[k..][..n - k];
    }
  }

  // ----- from the stream to the handlers -----

  // The reply of the YR worker is the only one that can show bytes of earlier frames.
  predicate SelfContained(frame: seq<byte>)
  {
    |frame| >= HEADER_SIZE && (HasCode(frame, YR) ==> |frame| >= ReplySize(YR))
  }

  ghost predicate AllPackets(packets: seq<seq<byte>>)
  {
    forall i :: 0 <= i < |packets| ==> |packets[i]| == PACKET_SIZE
  }

  ghost predicate AllSelfContained(frames: seq<seq<byte>>)
  {
    forall i :: 0 <= i < |frames| ==> KnownFrame(frames[i]) && SelfContained(frames[i])
  }

  ghost function CallsOf(packets: seq<seq<byte>>): seq<Call>
    requires AllPackets(packets)
  {
    if packets == [] then []
    else
      var n := |packets| - 1;
      var call := Dispatch(packets[n]).call;
      CallsOf(packets[..n]) + (if call.Some? then [call.value] else [])
  }

  ghost function FrameCalls(frames: seq<seq<byte>>): seq<Call>
    requires AllSelfContained(frames)
  {
    if frames == [] then []
    else
      var n := |frames| - 1;
      var call := FrameOutcome(frames[n]).call;
      FrameCalls(frames[..n]) + (if call.Some? then [call.value] else [])
  }

  lemma OneCall(packet: seq<byte>, frame: seq<byte>)
    requires KnownFrame(frame) && SelfContained(frame) && Holds(packet, frame)
    ensures Dispatch(packet) == FrameOutcome(frame)
  {
    hide Dispatch, HasCode, ReplySize, KnownHeader, Parsed;
    FrameIsolation(frame);
    assert Holds(frame + seq(PACKET_SIZE - |frame|, i => 0), frame);
  }

  lemma {:induction false} CallsFollowFrames(packets: seq<seq<byte>>, frames: seq<seq<byte>>)
    requires |packets| == |frames|
    requires AllPackets(packets) && AllSelfContained(frames)
    requires forall i :: 0 <= i < |frames| ==> Holds(packets[i], frames[i])
    ensures CallsOf(packets) == FrameCalls(frames)
  {
    hide Dispatch, FrameOutcome, SelfContained, KnownFrame;
    if frames != [] {
      var n := |frames| - 1;
      CallsFollowFrames(packets[..n], frames[..n]);
      assert KnownFrame(frames[n]) && SelfContained(frames[n]);
      OneCall(packets[n], frames[n]);
    }
  }

  // A connected client that starts reading and receives a concatenation of well-formed
  // frames, in whatever chunks and after whatever earlier connections, delivers those
  // frames and nothing else; and if none is a short YR reply, the handlers that run and the
  // values they get are those of the frames taken one by one.
  method ReceiveFrames(client: TcpClient, ghost frames: seq<seq<byte>>, chunks: seq<seq<byte>>)
    requires client.Valid() && client.connected && client.stopped && !client.overrun
    requires forall i :: 0 <= i < |frames| ==> KnownFrame(frames[i])
    requires Flatten(chunks) == Flatten(frames)
    modifies client, client.receiveBuffer.raw
    ensures client.Valid() && !client.overrun && old(client.packets) <= client.packets
    ensures var delivered := client.packets[|old(client.packets)|..];
      && |delivered| == |frames|
      && (forall i :: 0 <= i < |frames| ==> Holds(delivered[i], frames[i]))
      && AllPackets(delivered)
      && (AllSelfContained(frames) ==> CallsOf(delivered) == FrameCalls(frames))
  {
    hide CutStream, Dispatch, HasCode, ReplySize;
    var started := client.StartAsyncReadTask();
    assert [] + Flatten(chunks) == Flatten(chunks);
    CutFrames(frames);
    client.ReceiveAll(chunks);
    ghost var delivered := client.packets[client.mark..];
    assert client.Follows(Flatten(frames));
    forall i | 0 <= i < |frames| ensures Holds(delivered[i], frames[i]) {
      assert Holds(client.packets[client.mark + i], frames[i]);
    }
    if AllSelfContained(frames) {
      CallsFollowFrames(delivered, frames);
    }
  }
}
