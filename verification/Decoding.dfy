// Decoding of a reply in place: each field's digits are replaced by the number they
// spell, one field after the other, stopping at the first field without a number.
module Decoding {
  import opened Wrappers
  import opened HexField
  import opened Protocol

  function Slice(bytes: seq<byte>, f: Field): (s: seq<byte>)
    requires f.End() <= |bytes|
    ensures |s| == f.width
  {
    bytes[f.offset..f.End()]
  }

  // The number the digits of f spell, before any adjustment.
  function Parsed(bytes: seq<byte>, f: Field): Option<nat>
    requires f.End() <= |bytes|
  {
    FieldValue(Slice(bytes, f))
  }

  // The number stored in a decoded field.
  function Stored(bytes: seq<byte>, f: Field): nat
    requires f.End() <= |bytes|
  {
    Host(Slice(bytes, f))
  }

  datatype Decoded = Decoded(ok: bool, bytes: seq<byte>)

  function Overwrite(bytes: seq<byte>, f: Field, v: nat): (r: seq<byte>)
    requires f.End() <= |bytes|
    ensures |r| == |bytes|
  {
    bytes[..f.offset] + LittleEndian(v, f.width) + bytes[f.End()..]
  }

  function DecodeOne(bytes: seq<byte>, f: Field): (d: Decoded)
    requires f.End() <= |bytes|
    ensures |d.bytes| == |bytes|
  {
    match Parsed(bytes, f)
    case None => Decoded(false, bytes)
    case Some(v) => Decoded(true, Overwrite(bytes, f, Adjusted(f.adjust, v)))
  }

  ghost predicate Inside(fields: seq<Field>, lo: nat, hi: nat)
  {
    forall i :: 0 <= i < |fields| ==> lo <= fields[i].offset && fields[i].End() <= hi
  }

  function DecodeRun(bytes: seq<byte>, fields: seq<Field>): (d: Decoded)
    requires Inside(fields, 0, |bytes|)
    ensures |d.bytes| == |bytes|
  {
    if fields == [] then Decoded(true, bytes)
    else
      var d := DecodeRun(bytes, fields[..|fields| - 1]);
      if d.ok then DecodeOne(d.bytes, fields[|fields| - 1]) else d
  }

  // ----- the code: decodeField overwrites its argument -----

  method DecodeField(reply: array<byte>, f: Field) returns (ok: bool)
    requires f.End() <= reply.Length
    modifies reply
    ensures Decoded(ok, reply[..]) == DecodeOne(old(reply[..]), f)
  {
    match Parsed(reply[..], f)
    case None =>
      ok := false;
    case Some(v) =>
      var number := LittleEndian(Adjusted(f.adjust, v), f.width);
      for i := 0 to f.width
        invariant forall j :: 0 <= j < i ==> reply[f.offset + j] == number[j]
        invariant forall j :: 0 <= j < reply.Length && !(f.offset <= j < f.offset + i) ==> reply[j] == old(reply[j])
      {
        reply[f.offset + i] := number[i];
      }
      ok := true;
  }

  method DecodeFields(reply: array<byte>, fields: seq<Field>) returns (ok: bool)
    requires Inside(fields, 0, reply.Length)
    modifies reply
    ensures Decoded(ok, reply[..]) == DecodeRun(old(reply[..]), fields)
  {
    ok := true;
    for i := 0 to |fields|
      invariant ok
      invariant Decoded(ok, reply[..]) == DecodeRun(old(reply[..]), fields[..i])
    {
      assert fields[..i + 1][..i] == fields[..i];
      ok := DecodeField(reply, fields[i]);
      if !ok {
        DecodeStops(old(reply[..]), fields, i + 1);
        return;
      }
    }
    assert fields[..|fields|] == fields;
  }

  lemma {:induction false} DecodeStops(bytes: seq<byte>, fields: seq<Field>, k: nat)
    requires Inside(fields, 0, |bytes|)
    requires k <= |fields| && !DecodeRun(bytes, fields[..k]).ok
    ensures DecodeRun(bytes, fields) == DecodeRun(bytes, fields[..k])
  {
    if k < |fields| {
      var rest := fields[..|fields| - 1];
      assert rest[..k] == fields[..k];
      DecodeStops(bytes, rest, k);
    } else {
      assert fields[..k] == fields;
    }
  }

  // ----- what a run of decodings amounts to -----

  predicate Disjoint(f: Field, g: Field)
  {
    f.End() <= g.offset || g.End() <= f.offset
  }

  ghost predicate Separated(fields: seq<Field>)
  {
    forall i, j :: 0 <= i < j < |fields| ==> Disjoint(fields[i], fields[j])
  }

  // r holds in field f the adjusted number that bytes spells there.
  ghost predicate Stores(bytes: seq<byte>, f: Field, r: seq<byte>)
    requires f.End() <= |bytes| && f.End() <= |r|
  {
    && Parsed(bytes, f).Some?
    && Slice(r, f) == LittleEndian(Adjusted(f.adjust, Parsed(bytes, f).value), f.width)
  }

  lemma DecodeOneMeaning(bytes: seq<byte>, now: seq<byte>, f: Field)
    requires f.End() <= |bytes| == |now|
    requires Slice(now, f) == Slice(bytes, f)
    ensures var d := DecodeOne(now, f);
      (d.ok <==> Parsed(bytes, f).Some?) && (d.ok ==> Stores(bytes, f, d.bytes))
  {
  }

  lemma DecodeOneFrame(now: seq<byte>, f: Field, g: Field)
    requires f.End() <= |now| && g.End() <= |now| && Disjoint(f, g)
    ensures Slice(DecodeOne(now, f).bytes, g) == Slice(now, g)
  {
  }

  // Decoding separated fields one after the other in place is the same as reading each
  // from the original bytes: it succeeds exactly when every field spells a number, and
  // then stores every adjusted number.
  lemma {:induction false} DecodeRunMeaning(bytes: seq<byte>, fields: seq<Field>)
    requires Inside(fields, 0, |bytes|) && Separated(fields)
    ensures DecodeRun(bytes, fields).ok
       <==> forall i :: 0 <= i < |fields| ==> Parsed(bytes, fields[i]).Some?
    ensures DecodeRun(bytes, fields).ok
        ==> forall i :: 0 <= i < |fields| ==> Stores(bytes, fields[i], DecodeRun(bytes, fields).bytes)
  {
    hide DecodeOne, Parsed, Slice, Stores;
    if fields != [] {
      var n := |fields| - 1;
      var f := fields[n];
      var before := DecodeRun(bytes, fields[..n]);
      DecodeRunMeaning(bytes, fields[..n]);
      DecodeRunFrame(bytes, fields[..n], f);
      DecodeOneMeaning(bytes, before.bytes, f);
      var after := DecodeOne(before.bytes, f);
      forall i | 0 <= i < n && before.ok ensures Stores(bytes, fields[i], after.bytes) {
        DecodeOneFrame(before.bytes, f, fields[i]);
        StoresFrame(bytes, fields[i], before.bytes, after.bytes);
      }
    }
  }

  lemma StoresFrame(bytes: seq<byte>, f: Field, r: seq<byte>, s: seq<byte>)
    requires f.End() <= |bytes| && f.End() <= |r| && f.End() <= |s|
    requires Stores(bytes, f, r) && Slice(r, f) == Slice(s, f)
    ensures Stores(bytes, f, s)
  {
  }

  // Bytes outside all the decoded fields keep their value.
  lemma {:induction false} DecodeRunFrame(bytes: seq<byte>, fields: seq<Field>, g: Field)
    requires Inside(fields, 0, |bytes|) && g.End() <= |bytes|
    requires forall i :: 0 <= i < |fields| ==> Disjoint(fields[i], g)
    ensures Slice(DecodeRun(bytes, fields).bytes, g) == Slice(bytes, g)
  {
    if fields != [] {
      var n := |fields| - 1;
      var before := DecodeRun(bytes, fields[..n]);
      DecodeRunFrame(bytes, fields[..n], g);
      DecodeOneFrame(before.bytes, fields[n], g);
    }
  }

  // ----- the reply layouts are separated -----

  // Fields by increasing address between lo and hi.
  ghost predicate Ordered(fields: seq<Field>, lo: nat, hi: nat)
  {
    && Inside(fields, lo, hi)
    && forall i, j :: 0 <= i < j < |fields| ==> fields[i].End() <= fields[j].offset
  }

  lemma OrderedConcat(a: seq<Field>, b: seq<Field>, lo: nat, mid: nat, hi: nat)
    requires lo <= mid <= hi && Ordered(a, lo, mid) && Ordered(b, mid, hi)
    ensures Ordered(a + b, lo, hi)
  {
  }

  lemma OrderedStateFields()
    ensures Ordered(StateFields(), 11, 34)
  {
    var first := [Field(11, 1, Flag), Field(12, 2, NextArea), Field(14, 1, Flag), Field(15, 2, ErrorCode)];
    OrderedConcat(first, Flags(17, 7), 11, 17, 24);
    OrderedConcat(first + Flags(17, 7), Flags(26, 4), 11, 24, 30);
    OrderedConcat(first + Flags(17, 7) + Flags(26, 4), [Field(30, 4, Plain)], 11, 30, 34);
  }

  lemma OrderedSensingFields()
    ensures Ordered(SensingFields(), 11, 50)
  {
    OrderedStateFields();
    OrderedConcat([Field(34, 8, Plain)], Flags(42, 2), 34, 42, 50);
    OrderedConcat(StateFields(), [Field(34, 8, Plain)] + Flags(42, 2), 11, 34, 50);
  }

  lemma OrderedElements(offset: nat, count: nat)
    ensures Ordered(Elements(offset, count), offset, offset + 4 * count)
  {
  }

  lemma OrderedStatusFields()
    ensures Ordered(StatusFields(), 11, 101)
  {
    hide StateFields, Flags;
    OrderedStateFields();
    assert Ordered(Flags(34, 19), 34, 53) by { OrderedFlags(34, 19); }
    var last := [Field(53, 8, Plain), Field(61, 1, Flag)];
    OrderedConcat(Flags(34, 19), last, 34, 53, 101);
    OrderedConcat(StateFields(), Flags(34, 19) + last, 11, 34, 101);
  }

  lemma OrderedFlags(offset: nat, count: nat)
    ensures Ordered(Flags(offset, count), offset, offset + count)
  {
  }

  lemma OrderedDataFields(k: Kind)
    ensures Ordered(DataFields(k), HEADER_SIZE, ReplySize(k) - FOOTER_SIZE)
  {
    hide Elements, SensingFields, StatusFields, Ordered;
    OrderedSensingFields();
    OrderedStatusFields();
    var start, end := 50, ReplySize(k) - FOOTER_SIZE;
    match k
    case AR00 =>
      OrderedElements(start, RANGES);
      OrderedConcat(SensingFields(), Elements(start, RANGES), 11, start, end);
    case AR01 =>
      var mid := start + 4 * RANGES;
      OrderedElements(start, RANGES);
      OrderedElements(mid, RANGES);
      OrderedConcat(Elements(start, RANGES), Elements(mid, RANGES), start, mid, end);
      OrderedConcat(SensingFields(), Elements(start, RANGES) + Elements(mid, RANGES), 11, start, end);
    case AR06 =>
      OrderedElements(start, RANGES_MULTIECHO);
      OrderedConcat(SensingFields(), Elements(start, RANGES_MULTIECHO), 11, start, end);
    case XR00 =>
    case _ => OrderedNone(end);
  }

  lemma OrderedNone(hi: nat)
    ensures Ordered([], HEADER_SIZE, hi)
  {
  }

  lemma ReplyLayout(k: Kind)
    ensures Inside(ReplyFields(k), 0, ReplySize(k))
    ensures Separated(ReplyFields(k))
  {
    OrderedDataFields(k);
    var h, d := HeaderFields(k), DataFields(k);
    forall i, j | 0 <= i < j < |h + d| ensures Disjoint((h + d)[i], (h + d)[j]) {
      if i >= 3 {
        assert d[i - 3].End() <= d[j - 3].offset;
      }
    }
  }
}
