// WorkerBase: validating and decoding one reply, from the packed structure and from the
// raw buffer.
module Worker {
  import opened Wrappers
  import opened HexField
  import opened Protocol
  import opened Decoding
  import Crc

  // The bytes the checksum covers: everything between STX and the footer.
  function Covered(raw: seq<byte>): seq<byte>
    requires |raw| > FOOTER_SIZE
  {
    raw[1..|raw| - FOOTER_SIZE]
  }

  function ComputedCrc(raw: seq<byte>): nat
    requires |raw| > FOOTER_SIZE
  {
    Crc.Number(Crc.Checksum(Covered(raw)))
  }

  // decodeField on a local copy whose result is not checked: without a leading digit the
  // copy keeps the raw bytes, read as a number of the host.
  function Unchecked(raw: seq<byte>, f: Field): nat
    requires f.End() <= |raw|
  {
    match Parsed(raw, f)
    case Some(v) => v
    case None => Stored(raw, f)
  }

  // process(const Reply&): the decoded structure, or nothing.
  function ProcessRaw(k: Kind, raw: seq<byte>): (r: Option<seq<byte>>)
    requires !k.YR? && |raw| == ReplySize(k)
    ensures r.Some? ==> |r.value| == |raw|
  {
    ReplyLayout(k);
    if Parsed(raw, CMD_SIZE).None? then None
    else if Parsed(raw, STATUS).None? then None
    else if Parsed(raw, CMD_SIZE).value != ReplySize(k) then None
    else if ComputedCrc(raw) != Unchecked(raw, CrcField(k)) then None
    else if Parsed(raw, STATUS).value != 0 then None
    else
      var d := DecodeRun(raw, ReplyFields(k));
      if d.ok then Some(d.bytes) else None
  }

  method Process(k: Kind, raw: seq<byte>) returns (r: Option<seq<byte>>)
    requires !k.YR? && |raw| == ReplySize(k)
    ensures r == ProcessRaw(k, raw)
  {
    hide Parsed, Unchecked, ReplyFields, DecodeRun, Crc.Checksum, Crc.Number;
    var size, status := Parsed(raw, CMD_SIZE), Parsed(raw, STATUS);
    if size.None? || status.None? {
      return None;
    }
    if size.value != ReplySize(k) {
      return None;
    }
    var crc := Crc.CalculateCrc(raw[1..|raw| - FOOTER_SIZE]);
    if Crc.Number(crc) != Unchecked(raw, CrcField(k)) {
      return None;
    }
    if status.value != 0 {
      return None;
    }
    var reply := new byte[|raw|](i requires 0 <= i < |raw| => raw[i]);
    assert reply[..] == raw;
    ReplyLayout(k);
    var ok := DecodeFields(reply, ReplyFields(k));
    return if ok then Some(reply[..]) else None;
  }

  // A reply is accepted exactly when its size field is its length, its status field is
  // zero, its checksum field is the checksum of the covered bytes and all data fields
  // spell numbers. A checksum field without digits is never mistaken for a checksum,
  // although the comparison itself would let one through.
  ghost predicate Acceptable(k: Kind, raw: seq<byte>)
    requires |raw| == ReplySize(k)
  {
    OrderedDataFields(k);
    && Parsed(raw, CMD_SIZE) == Some(ReplySize(k))
    && Parsed(raw, STATUS) == Some(0)
    && Parsed(raw, CrcField(k)) == Some(ComputedCrc(raw))
    && AllParse(raw, DataFields(k))
  }

  ghost predicate AllParse(bytes: seq<byte>, fields: seq<Field>)
    requires Inside(fields, 0, |bytes|)
  {
    forall i :: 0 <= i < |fields| ==> Parsed(bytes, fields[i]).Some?
  }

  lemma ReplyFieldsAre(k: Kind)
    ensures |ReplyFields(k)| == 3 + |DataFields(k)|
    ensures ReplyFields(k)[0] == CMD_SIZE && ReplyFields(k)[1] == STATUS && ReplyFields(k)[2] == CrcField(k)
    ensures forall i :: 0 <= i < |DataFields(k)| ==> ReplyFields(k)[i + 3] == DataFields(k)[i]
  {
    hide DataFields, ReplySize;
  }

  lemma ReplyDecodes(k: Kind, raw: seq<byte>)
    requires |raw| == ReplySize(k)
    ensures Inside(ReplyFields(k), 0, |raw|) && Inside(DataFields(k), 0, |raw|)
    ensures DecodeRun(raw, ReplyFields(k)).ok <==>
      Parsed(raw, CMD_SIZE).Some? && Parsed(raw, STATUS).Some? && Parsed(raw, CrcField(k)).Some?
      && AllParse(raw, DataFields(k))
    ensures DecodeRun(raw, ReplyFields(k)).ok ==>
      forall i :: 0 <= i < |ReplyFields(k)| ==>
        Stores(raw, ReplyFields(k)[i], DecodeRun(raw, ReplyFields(k)).bytes)
  {
    hide ReplyFields, DataFields, ReplySize, Parsed, DecodeRun, Stores;
    ReplyLayout(k);
    OrderedDataFields(k);
    ReplyFieldsAre(k);
    var fs, d := ReplyFields(k), DataFields(k);
    DecodeRunMeaning(raw, fs);
    if DecodeRun(raw, fs).ok {
      assert Parsed(raw, fs[0]).Some? && Parsed(raw, fs[1]).Some? && Parsed(raw, fs[2]).Some?;
      forall i | 0 <= i < |d| ensures Parsed(raw, d[i]).Some? {
        assert Parsed(raw, fs[i + 3]).Some?;
      }
    }
    if Parsed(raw, CMD_SIZE).Some? && Parsed(raw, STATUS).Some? && Parsed(raw, CrcField(k)).Some?
       && AllParse(raw, d) {
      forall i | 0 <= i < |fs| ensures Parsed(raw, fs[i]).Some? {
        if i >= 3 { assert Parsed(raw, d[i - 3]).Some?; }
      }
    }
  }

  lemma AcceptedReplies(k: Kind, raw: seq<byte>)
    requires !k.YR? && |raw| == ReplySize(k)
    ensures ProcessRaw(k, raw).Some? <==> Acceptable(k, raw)
    ensures Inside(ReplyFields(k), 0, |raw|)
    ensures ProcessRaw(k, raw).Some? ==>
      forall i :: 0 <= i < |ReplyFields(k)| ==> Stores(raw, ReplyFields(k)[i], ProcessRaw(k, raw).value)
  {
    hide ReplyFields, DataFields, ReplySize, Parsed, DecodeRun, Stores, ComputedCrc;
    ReplyDecodes(k, raw);
  }

  // Damage to an accepted reply that stays within 16 consecutive bits of the covered
  // bytes is always noticed, wherever it starts and whatever fields it hits.
  lemma BurstRejected(k: Kind, raw: seq<byte>, bad: seq<byte>, start: nat)
    requires !k.YR? && |raw| == |bad| == ReplySize(k)
    requires ProcessRaw(k, raw).Some?
    requires bad[0] == raw[0] && bad[|raw| - FOOTER_SIZE..] == raw[|raw| - FOOTER_SIZE..]
    requires Crc.BurstError(Covered(raw), Covered(bad), start)
    ensures ProcessRaw(k, bad).None?
  {
    hide ReplyFields, DataFields, ReplySize, ProcessRaw;
    AcceptedReplies(k, raw);
    AcceptedReplies(k, bad);
    Crc.BurstDetected(Covered(raw), Covered(bad), start);
    if ProcessRaw(k, bad).Some? {
      var f := CrcField(k);
      assert Slice(raw, f) == raw[|raw| - FOOTER_SIZE..][..4];
      assert Slice(bad, f) == bad[|raw| - FOOTER_SIZE..][..4];
      Crc.NumberInjective(Crc.Checksum(Covered(raw)), Crc.Checksum(Covered(bad)));
    }
  }

  // ----- the buffer path of the AR00 and AR01 workers -----

  // TVisitor::get with the adjustment that follows it. A field that ends with the buffer
  // is refused.
  function Visit(buffer: seq<byte>, f: Field): Option<nat>
  {
    if |buffer| <= f.End() then None
    else
      match Parsed(buffer, f)
      case None => None
      case Some(v) => Some(Adjusted(f.adjust, v))
  }

  function VisitAll(buffer: seq<byte>, fields: seq<Field>): (r: Option<seq<nat>>)
    ensures r.Some? ==> |r.value| == |fields|
  {
    if fields == [] then Some([])
    else
      var rest := VisitAll(buffer, fields[..|fields| - 1]);
      var v := Visit(buffer, fields[|fields| - 1]);
      if rest.Some? && v.Some? then Some(rest.value + [v.value]) else None
  }

  datatype Reading = Reading(cmdSize: nat, status: nat, crc: nat, sensing: seq<nat>)

  // What an uninitialised local holds when the visitor leaves it alone.
  datatype Leftover = Leftover(size: nat, status: nat, crc: nat)

  function Or(v: Option<nat>, leftover: nat): nat
  {
    if v.Some? then v.value else leftover
  }

  // process(const std::string&) followed by decode(buffer).
  function ProcessBuffer(k: Kind, buffer: seq<byte>, junk: Leftover): Option<Reading>
    requires k.AR00? || k.AR01?
    requires |buffer| > FOOTER_SIZE
  {
    var size := Or(Visit(buffer, CMD_SIZE), junk.size);
    var status := Or(Visit(buffer, STATUS), junk.status);
    var sizeValid := size == ReplySize(k) && |buffer| == size;
    if !sizeValid then None
    else if ComputedCrc(buffer) != Or(Visit(buffer, CrcField(k)), junk.crc) then None
    else if status != 0 then None
    else
      var header := VisitAll(buffer, HeaderFields(k));
      var sensing := VisitAll(buffer, SensingFields());
      if header.None? || sensing.None? then None
      else Some(Reading(header.value[0], header.value[1], header.value[2], sensing.value))
  }

  lemma {:induction false} VisitAllMeaning(buffer: seq<byte>, fields: seq<Field>)
    requires |buffer| > 0 && Inside(fields, 0, |buffer| - 1)
    ensures VisitAll(buffer, fields).Some? <==> forall i :: 0 <= i < |fields| ==> Parsed(buffer, fields[i]).Some?
    ensures VisitAll(buffer, fields).Some? ==>
      forall i :: 0 <= i < |fields| ==>
        VisitAll(buffer, fields).value[i] == Adjusted(fields[i].adjust, Parsed(buffer, fields[i]).value)
  {
    hide Parsed;
    if fields != [] {
      VisitAllMeaning(buffer, fields[..|fields| - 1]);
    }
  }

  // A field wide enough for its adjusted number.
  predicate Roomy(f: Field)
  {
    f.width > 0 && (f.adjust.NextArea? || f.adjust.ErrorCode? ==> f.width == 2)
  }

  lemma StoresNumber(bytes: seq<byte>, f: Field, r: seq<byte>)
    requires f.End() <= |bytes| && f.End() <= |r| && Roomy(f) && Stores(bytes, f, r)
    ensures Stored(r, f) == Adjusted(f.adjust, Parsed(bytes, f).value)
  {
    FieldParses(Slice(bytes, f));
    PowerSquares(f.width);
    PowerMonotone(256, 1, f.width);
    assert Power(256, 1) == 256 && Power(16, 2) == 256 && Power(256, 2) == 65536;
    HostRoundTrip(Adjusted(f.adjust, Parsed(bytes, f).value), f.width);
  }

  // Distances and, for AR01, intensities: only the structure path converts them.
  ghost predicate ReadingsParse(k: Kind, raw: seq<byte>)
    requires k.AR00? || k.AR01?
    requires |raw| == ReplySize(k)
  {
    OrderedDataFields(k);
    forall i :: 19 <= i < |DataFields(k)| ==> Parsed(raw, DataFields(k)[i]).Some?
  }

  lemma RoomySensing(i: nat)
    requires i < 19
    ensures Roomy(SensingFields()[i])
  {
  }

  lemma DataStartsWithSensing(k: Kind)
    requires k.AR00? || k.AR01?
    ensures |DataFields(k)| >= 19
    ensures forall i :: 0 <= i < 19 ==> DataFields(k)[i] == SensingFields()[i]
  {
  }

  // The buffer path accepts on the header, checksum and sensing fields alone: a header
  // field that leaves junk in a local is refused later by decodeHeaderAndFooter.
  lemma BufferAccepts(k: Kind, raw: seq<byte>, junk: Leftover)
    requires k.AR00? || k.AR01?
    requires |raw| == ReplySize(k)
    ensures Inside(SensingFields(), 0, |raw|)
    ensures ProcessBuffer(k, raw, junk).Some? <==>
      && Parsed(raw, CMD_SIZE) == Some(ReplySize(k))
      && Parsed(raw, STATUS) == Some(0)
      && Parsed(raw, CrcField(k)) == Some(ComputedCrc(raw))
      && AllParse(raw, SensingFields())
    ensures ProcessBuffer(k, raw, junk).Some? ==>
      var b := ProcessBuffer(k, raw, junk).value;
      && b.cmdSize == Parsed(raw, CMD_SIZE).value
      && b.status == Parsed(raw, STATUS).value
      && b.crc == Parsed(raw, CrcField(k)).value
      && Some(b.sensing) == VisitAll(raw, SensingFields())
  {
    hide SensingFields, ReplySize, Parsed, ComputedCrc, VisitAll;
    SizeOfSensing(k);
    OrderedSensingFields();
    VisitAllMeaning(raw, HeaderFields(k));
    VisitAllMeaning(raw, SensingFields());
    var h := HeaderFields(k);
    assert h[0] == CMD_SIZE && h[1] == STATUS && h[2] == CrcField(k);
  }

  // Both decoders accept on the same header and sensing fields.
  lemma SameVerdict(k: Kind, raw: seq<byte>, junk: Leftover)
    requires k.AR00? || k.AR01?
    requires |raw| == ReplySize(k)
    ensures ProcessRaw(k, raw).Some? <==> ProcessBuffer(k, raw, junk).Some? && ReadingsParse(k, raw)
  {
    hide SensingFields, DataFields, ReplySize, Parsed, ProcessRaw, ProcessBuffer, ComputedCrc;
    AcceptedReplies(k, raw);
    BufferAccepts(k, raw, junk);
    OrderedDataFields(k);
    DataStartsWithSensing(k);
    var d, s := DataFields(k), SensingFields();
    if AllParse(raw, d) {
      forall i | 0 <= i < 19 ensures Parsed(raw, s[i]).Some? {
        assert Parsed(raw, d[i]).Some?;
      }
    }
    if AllParse(raw, s) && ReadingsParse(k, raw) {
      forall i | 0 <= i < |d| ensures Parsed(raw, d[i]).Some? {
        if i < 19 { assert Parsed(raw, s[i]).Some?; }
      }
    }
  }

  // Field by field, the structure holds what the visitors return.
  lemma SameFields(k: Kind, raw: seq<byte>)
    requires k.AR00? || k.AR01?
    requires |raw| == ReplySize(k) && ProcessRaw(k, raw).Some?
    ensures var s := ProcessRaw(k, raw).value;
      && Some(Stored(s, CMD_SIZE)) == Parsed(raw, CMD_SIZE)
      && Some(Stored(s, STATUS)) == Parsed(raw, STATUS)
      && Some(Stored(s, CrcField(k))) == Parsed(raw, CrcField(k))
    ensures Inside(SensingFields(), 0, |raw|)
    ensures forall i :: 0 <= i < 19 ==>
      && Parsed(raw, SensingFields()[i]).Some?
      && Stored(ProcessRaw(k, raw).value, SensingFields()[i])
         == Adjusted(SensingFields()[i].adjust, Parsed(raw, SensingFields()[i]).value)
  {
    hide SensingFields, DataFields, ReplySize, Parsed, ProcessRaw, ReplyFields, ComputedCrc, Stored;
    AcceptedReplies(k, raw);
    ReplyFieldsAre(k);
    OrderedDataFields(k);
    DataStartsWithSensing(k);
    var s, fs := ProcessRaw(k, raw).value, ReplyFields(k);
    StoresNumber(raw, fs[0], s);
    StoresNumber(raw, fs[1], s);
    StoresNumber(raw, fs[2], s);
    forall i | 0 <= i < 19
      ensures SensingFields()[i].End() <= |raw| && Parsed(raw, SensingFields()[i]).Some?
      ensures Stored(s, SensingFields()[i])
           == Adjusted(SensingFields()[i].adjust, Parsed(raw, SensingFields()[i]).value)
    {
      assert fs[i + 3] == DataFields(k)[i];
      RoomySensing(i);
      assert Stores(raw, fs[i + 3], s);
      StoresNumber(raw, fs[i + 3], s);
    }
    OrderedSensingFields();
  }

  // The two decoders agree on every frame of the right length, whatever the uninitialised
  // locals of the buffer path hold: the structure path accepts it exactly when the buffer
  // path does and all readings spell numbers, and then both give the same size, status,
  // checksum and sensing data.
  lemma DecodersAgree(k: Kind, raw: seq<byte>, junk: Leftover)
    requires k.AR00? || k.AR01?
    requires |raw| == ReplySize(k)
    ensures ProcessRaw(k, raw).Some? <==> ProcessBuffer(k, raw, junk).Some? && ReadingsParse(k, raw)
    ensures Inside(SensingFields(), 0, |raw|)
    ensures ProcessRaw(k, raw).Some? ==>
      var s, b := ProcessRaw(k, raw).value, ProcessBuffer(k, raw, junk).value;
      && b.cmdSize == Stored(s, CMD_SIZE)
      && b.status == Stored(s, STATUS)
      && b.crc == Stored(s, CrcField(k))
      && |b.sensing| == 19
      && forall i :: 0 <= i < 19 ==> b.sensing[i] == Stored(s, SensingFields()[i])
  {
    hide SensingFields, ReplySize, Parsed, ProcessRaw, ProcessBuffer, ReadingsParse, ComputedCrc, Stored;
    SameVerdict(k, raw, junk);
    BufferAccepts(k, raw, junk);
    SizeOfSensing(k);
    OrderedSensingFields();
    VisitAllMeaning(raw, SensingFields());
    if ProcessRaw(k, raw).Some? {
      SameFields(k, raw);
    }
  }

  lemma SizeOfSensing(k: Kind)
    requires k.AR00? || k.AR01?
    ensures ReplySize(k) > 55
  {
  }
}
