/** DoubleWritableArray, the record SVMMapper emits and SVMReducer consumes:
    a feature array and a label, serialised as a 4-byte big-endian count, one
    8-byte pattern per feature and one 8-byte pattern for the label. */
module RecordCodec {
  import opened Wrappers
  import opened Java

  /** The value a DoubleWritableArray carries. */
  datatype Record = Record(features: seq<Double>, classLabel: Double)

  /** A Java array's length always fits an int. */
  predicate Encodable(r: Record) {
    |r.features| < TWO_31
  }

  /** Bytes taken by a record with n features. */
  function EncodedSize(n: nat): nat {
    4 + 8 * n + 8
  }

  /** The patterns writeDouble actually puts on the wire. */
  function Canonical(r: Record): (c: Record)
    ensures |c.features| == |r.features|
  {
    Record(seq(|r.features|, i requires 0 <= i < |r.features| => DoubleToLongBits(r.features[i])),
           DoubleToLongBits(r.classLabel))
  }

  /** A record no NaN of which has a non-canonical payload. */
  predicate NoNaNPayloads(r: Record) {
    && (forall i :: 0 <= i < |r.features| ==> DoubleToLongBits(r.features[i]) == r.features[i])
    && DoubleToLongBits(r.classLabel) == r.classLabel
  }

  function EncodeDoubles(ds: seq<Double>): (b: seq<byte>)
    ensures |b| == 8 * |ds|
  {
    if ds == [] then [] else EncodeDoubles(ds[..|ds| - 1]) + LongBytes(DoubleToLongBits(ds[|ds| - 1]))
  }

  /** The bytes DoubleWritableArray.write emits: the feature count as a 4-byte
      int, eight bytes per feature, eight bytes of label. */
  function Encode(r: Record): (b: seq<byte>)
    requires Encodable(r)
    ensures |b| == EncodedSize(|r.features|)
  {
    IntBytes(|r.features| as int32) + EncodeDoubles(r.features) + LongBytes(DoubleToLongBits(r.classLabel))
  }

  /** The pattern readDouble assembles from the eight bytes at off. */
  function DoubleAt(b: seq<byte>, off: nat): Double
    requires off + 8 <= |b|
  {
    LongOfBytes(b[off..off + 8])
  }

  /** What DoubleWritableArray.readFields makes of a byte stream: the record
      and the number of bytes it consumed, or the exception it throws. */
  function Decode(b: seq<byte>): (r: Result<(Record, nat), Exception>)
    ensures r.Success? ==> r.value.1 == EncodedSize(|r.value.0.features|) <= |b|
    ensures r.Success? ==> IntOfBytes(b[..4]) as int == |r.value.0.features|
    ensures r.Failure? ==> r.error in {EOFException, NegativeArraySizeException}
  {
    if |b| < 4 then Failure(EOFException)
    else
      var n := IntOfBytes(b[..4]) as int;
      if n < 0 then Failure(NegativeArraySizeException)
      else if |b| < EncodedSize(n) then Failure(EOFException)
      else
        var features := seq(n, i requires 0 <= i < n => DoubleAt(b, 4 + 8 * i));
        Success((Record(features, DoubleAt(b, 4 + 8 * n)), EncodedSize(n)))
  }

  /** A successful decode, field by field. */
  lemma DecodeFields(b: seq<byte>)
    requires Decode(b).Success?
    ensures var (rec, k) := Decode(b).value;
      && (forall i :: 0 <= i < |rec.features| ==> rec.features[i] == DoubleAt(b, 4 + 8 * i))
      && rec.classLabel == DoubleAt(b, 4 + 8 * |rec.features|)
  {
  }

  lemma EncodeDoublesSnoc(ds: seq<Double>, d: Double)
    ensures EncodeDoubles(ds + [d]) == EncodeDoubles(ds) + LongBytes(DoubleToLongBits(d))
  {
    assert (ds + [d])[..|ds|] == ds;
  }

  lemma {:induction false} EncodeDoublesAt(ds: seq<Double>, i: nat)
    requires i < |ds|
    ensures EncodeDoubles(ds)[8 * i..8 * i + 8] == LongBytes(DoubleToLongBits(ds[i]))
  {
    var p := ds[..|ds| - 1];
    if i < |ds| - 1 {
      EncodeDoublesAt(p, i);
      assert EncodeDoubles(ds)[..8 * |p|] == EncodeDoubles(p);
    }
  }

  /** write's layout: the count, then each feature's pattern in array order,
      then the label's, 4 + 8n + 8 bytes in all. */
  lemma EncodeLayout(r: Record)
    requires Encodable(r)
    ensures |Encode(r)| == EncodedSize(|r.features|)
    ensures Encode(r)[..4] == IntBytes(|r.features| as int32)
    ensures forall i :: 0 <= i < |r.features| ==>
      Encode(r)[4 + 8 * i..12 + 8 * i] == LongBytes(DoubleToLongBits(r.features[i]))
    ensures Encode(r)[4 + 8 * |r.features|..] == LongBytes(DoubleToLongBits(r.classLabel))
  {
    var n := |r.features|;
    var h := IntBytes(n as int32);
    var body := EncodeDoubles(r.features);
    var t := LongBytes(DoubleToLongBits(r.classLabel));
    var e := Encode(r);
    assert e == h + body + t;
    forall i | 0 <= i < n
      ensures e[4 + 8 * i..12 + 8 * i] == LongBytes(DoubleToLongBits(r.features[i]))
    {
      EncodeDoublesAt(r.features, i);
      MiddleSlice(h, body, t, 8 * i, 8);
    }
    assert e[..4] == h;
    assert e[4 + 8 * n..] == t;
  }

  /** A slice of the middle part of a three-part concatenation. */
  lemma MiddleSlice(h: seq<byte>, m: seq<byte>, t: seq<byte>, off: nat, len: nat)
    requires off + len <= |m|
    ensures (h + m + t)[|h| + off..|h| + off + len] == m[off..off + len]
  {
  }

  /** The eight bytes at off of a prefix followed by anything. */
  lemma SliceOfPrefix(e: seq<byte>, rest: seq<byte>, off: nat)
    requires off + 8 <= |e|
    ensures (e + rest)[off..off + 8] == e[off..off + 8]
  {
  }

  /** Each feature slot of the written bytes, followed by anything, reads
      back as the pattern writeDouble put there. */
  lemma DecodeEncodeField(r: Record, rest: seq<byte>, i: nat)
    requires Encodable(r) && i < |r.features|
    ensures |Encode(r) + rest| >= 12 + 8 * i
    ensures DoubleAt(Encode(r) + rest, 4 + 8 * i) == DoubleToLongBits(r.features[i])
  {
    var e, k, bits := Encode(r), 4 + 8 * i, DoubleToLongBits(r.features[i]);
    EncodeLayout(r);
    assert e[k..k + 8] == LongBytes(bits);
    SliceOfPrefix(e, rest, k);
    LongRoundTrip(bits);
    assert DoubleAt(e + rest, k) == LongOfBytes(LongBytes(bits));
  }

  /** The header and the label slot of the written bytes read back likewise. */
  lemma DecodeEncodeEnds(r: Record, rest: seq<byte>)
    requires Encodable(r)
    ensures |Encode(r) + rest| >= EncodedSize(|r.features|)
    ensures IntOfBytes((Encode(r) + rest)[..4]) as int == |r.features|
    ensures DoubleAt(Encode(r) + rest, 4 + 8 * |r.features|) == DoubleToLongBits(r.classLabel)
  {
    var n := |r.features|;
    var e := Encode(r);
    EncodeLayout(r);
    assert (e + rest)[..4] == e[..4];
    IntRoundTrip(n as int32);
    SliceOfPrefix(e, rest, 4 + 8 * n);
    assert e[4 + 8 * n..4 + 8 * n + 8] == e[4 + 8 * n..];
    LongRoundTrip(DoubleToLongBits(r.classLabel));
  }

  /** Decode succeeds with rec on bytes that hold rec's count, fields and
      label in their slots. */
  lemma DecodeOfSlots(b: seq<byte>, rec: Record)
    requires |b| >= EncodedSize(|rec.features|)
    requires IntOfBytes(b[..4]) as int == |rec.features|
    requires forall i :: 0 <= i < |rec.features| ==> DoubleAt(b, 4 + 8 * i) == rec.features[i]
    requires DoubleAt(b, 4 + 8 * |rec.features|) == rec.classLabel
    ensures Decode(b) == Success((rec, EncodedSize(|rec.features|)))
  {
    var n := |rec.features|;
    var features := seq(n, i requires 0 <= i < n => DoubleAt(b, 4 + 8 * i));
    assert features == rec.features;
  }

  /** The eight bytes at off of the stream that starts at p0. */
  lemma SliceOfSuffix(data: seq<byte>, p0: nat, off: nat)
    requires p0 + off + 8 <= |data|
    ensures DoubleAt(data[p0..], off) == LongOfBytes(data[p0 + off..p0 + off + 8])
  {
    assert data[p0..][off..off + 8] == data[p0 + off..p0 + off + 8];
  }

  /** Round trip: readFields on the bytes write emitted, followed by anything,
      restores the record as written (bit-exact up to NaN payloads) and
      consumes exactly those bytes. */
  lemma DecodeEncode(r: Record, rest: seq<byte>)
    requires Encodable(r)
    ensures Decode(Encode(r) + rest) == Success((Canonical(r), EncodedSize(|r.features|)))
  {
    var c := Canonical(r);
    DecodeEncodeEnds(r, rest);
    forall i | 0 <= i < |c.features|
      ensures DoubleAt(Encode(r) + rest, 4 + 8 * i) == c.features[i]
    {
      DecodeEncodeField(r, rest, i);
    }
    DecodeOfSlots(Encode(r) + rest, c);
  }

  /** Without non-canonical NaNs the round trip is the identity. */
  lemma DecodeEncodeExact(r: Record)
    requires Encodable(r) && NoNaNPayloads(r)
    ensures Decode(Encode(r)) == Success((r, |Encode(r)|))
  {
    DecodeEncode(r, []);
    assert Encode(r) + [] == Encode(r);
    assert Canonical(r).features == r.features;
  }

  /** readFields looks only at the bytes it consumes. */
  lemma DecodeReadsOnlyItsBytes(b: seq<byte>, c: seq<byte>)
    requires Decode(b).Success?
    requires Decode(b).value.1 <= |c| && b[..Decode(b).value.1] == c[..Decode(b).value.1]
    ensures Decode(c) == Decode(b)
  {
    var k := Decode(b).value.1;
    assert b[..4] == b[..k][..4] == c[..k][..4] == c[..4];
    var n := IntOfBytes(b[..4]) as int;
    assert k == EncodedSize(n);
    forall i | 0 <= i <= n
      ensures DoubleAt(b, 4 + 8 * i) == DoubleAt(c, 4 + 8 * i)
    {
      assert b[4 + 8 * i..12 + 8 * i] == b[..k][4 + 8 * i..12 + 8 * i];
      assert c[4 + 8 * i..12 + 8 * i] == c[..k][4 + 8 * i..12 + 8 * i];
    }
    var fb := seq(n, i requires 0 <= i < n => DoubleAt(b, 4 + 8 * i));
    var fc := seq(n, i requires 0 <= i < n => DoubleAt(c, 4 + 8 * i));
    assert fb == fc;
  }

  /** The other direction: the bytes readFields consumed are exactly what
      write emits for the decoded record, precisely when they hold no
      non-canonical NaN. */
  lemma EncodeDecode(b: seq<byte>)
    requires Decode(b).Success?
    ensures Encodable(Decode(b).value.0)
    ensures var (rec, k) := Decode(b).value;
      Encode(rec) == b[..k] <==> NoNaNPayloads(rec)
  {
    var (rec, k) := Decode(b).value;
    if NoNaNPayloads(rec) {
      ReencodeCanonical(b);
    }
    if Encode(rec) == b[..k] {
      ReencodedIsCanonical(b);
    }
  }

  /** The slot of feature i in the consumed bytes is what write emits for it. */
  lemma ReencodeSlot(b: seq<byte>, i: nat)
    requires Decode(b).Success? && i < |Decode(b).value.0.features|
    requires NoNaNPayloads(Decode(b).value.0)
    ensures var (rec, k) := Decode(b).value;
      b[..k][4 + 8 * i..12 + 8 * i] == LongBytes(DoubleToLongBits(rec.features[i]))
  {
    var (rec, k) := Decode(b).value;
    DecodeFields(b);
    assert rec.features[i] == DoubleAt(b, 4 + 8 * i);
    LongBytesRoundTrip(b[4 + 8 * i..12 + 8 * i]);
    assert b[..k][4 + 8 * i..12 + 8 * i] == b[4 + 8 * i..12 + 8 * i];
  }

  lemma ReencodeCanonical(b: seq<byte>)
    requires Decode(b).Success? && NoNaNPayloads(Decode(b).value.0)
    ensures var (rec, k) := Decode(b).value;
      Encodable(rec) && Encode(rec) == b[..k]
  {
    var (rec, k) := Decode(b).value;
    var n := |rec.features|;
    var e := Encode(rec);
    var f := b[..k];
    EncodeLayout(rec);
    DecodeFields(b);
    IntBytesRoundTrip(b[..4]);
    assert e[..4] == f[..4];
    forall i | 0 <= i < n
      ensures e[4 + 8 * i..12 + 8 * i] == f[4 + 8 * i..12 + 8 * i]
    {
      ReencodeSlot(b, i);
    }
    LongBytesRoundTrip(b[4 + 8 * n..12 + 8 * n]);
    assert f[4 + 8 * n..] == b[4 + 8 * n..12 + 8 * n];
    SlicesEqual(e, f, n);
  }

  lemma ReencodedIsCanonical(b: seq<byte>)
    requires Decode(b).Success?
    requires var (rec, k) := Decode(b).value;
      Encodable(rec) && Encode(rec) == b[..k]
    ensures NoNaNPayloads(Decode(b).value.0)
  {
    var (rec, k) := Decode(b).value;
    var e := Encode(rec);
    DecodeEncode(rec, []);
    assert e + [] == e;
    DecodeReadsOnlyItsBytes(b, e);
    assert Canonical(rec) == rec;
    assert forall i :: 0 <= i < |rec.features| ==> Canonical(rec).features[i] == rec.features[i];
  }

  /** Two byte strings of a record's size agreeing on every field agree. */
  lemma SlicesEqual(e: seq<byte>, f: seq<byte>, n: nat)
    requires |e| == |f| == EncodedSize(n)
    requires e[..4] == f[..4]
    requires forall i :: 0 <= i < n ==> e[4 + 8 * i..12 + 8 * i] == f[4 + 8 * i..12 + 8 * i]
    requires e[4 + 8 * n..] == f[4 + 8 * n..]
    ensures e == f
  {
    forall k | 0 <= k < |e|
      ensures e[k] == f[k]
    {
      if k < 4 {
        assert e[k] == e[..4][k];
        assert f[k] == f[..4][k];
      } else if k < 4 + 8 * n {
        var i := (k - 4) / 8;
        assert e[k] == e[4 + 8 * i..12 + 8 * i][k - 4 - 8 * i];
        assert f[k] == f[4 + 8 * i..12 + 8 * i][k - 4 - 8 * i];
      } else {
        assert e[k] == e[4 + 8 * n..][k - 4 - 8 * n];
        assert f[k] == f[4 + 8 * n..][k - 4 - 8 * n];
      }
    }
  }

  /** readFields cannot succeed on fewer bytes than the header declares: it
      fails exactly when the count is short, negative, or the body is cut off. */
  lemma DecodeFailure(b: seq<byte>)
    ensures Decode(b).Failure? <==>
      |b| < 4 || IntOfBytes(b[..4]) < 0 || |b| < EncodedSize(IntOfBytes(b[..4]) as nat)
    ensures |b| >= 4 && IntOfBytes(b[..4]) < 0 ==> Decode(b) == Failure(NegativeArraySizeException)
  {
  }

  /** A stream whose count is n but which ends before the label's last byte. */
  lemma DecodeTruncated(b: seq<byte>, n: nat)
    requires |b| >= 4 && IntOfBytes(b[..4]) as int == n && |b| < EncodedSize(n)
    ensures Decode(b) == Failure(EOFException)
  {
  }

  /** The three writes of DoubleWritableArray.write together emit Encode. */
  lemma WriteLayout(start: seq<byte>, header: seq<byte>, body: seq<byte>, end: seq<byte>, r: Record)
    requires Encodable(r)
    requires header == start + IntBytes(|r.features| as int32)
    requires body == header + EncodeDoubles(r.features)
    requires end == body + LongBytes(DoubleToLongBits(r.classLabel))
    ensures end == start + Encode(r)
  {
    var h := IntBytes(|r.features| as int32);
    var m := EncodeDoubles(r.features);
    var t := LongBytes(DoubleToLongBits(r.classLabel));
    assert Encode(r) == h + m + t;
    SeqAssoc3(start, h, m, t);
  }

  lemma SeqAssoc3<T>(a: seq<T>, b: seq<T>, c: seq<T>, d: seq<T>)
    ensures a + b + c + d == a + (b + c + d)
  {
  }

  /** A DoubleWritableArray. `elements` is the Java field `array` and
      `classLabel` the field `label`; `elements` is null until the constructor
      with arguments or readFields sets it. */
  class DoubleWritableArray {
    var elements: array?<Double>
    var classLabel: Double

    /** The no-argument constructor Hadoop calls before readFields. */
    constructor Empty()
      ensures elements == null && classLabel == 0
    {
      elements := null;
      classLabel := 0;
    }

    /** Stores the caller's array itself, not a copy. */
    constructor (a: array<Double>, classLabel: Double)
      ensures this.elements == a && this.classLabel == classLabel
    {
      this.elements := a;
      this.classLabel := classLabel;
    }

    function GetArray(): array?<Double>
      reads this
    {
      elements
    }

    function GetLabel(): Double
      reads this
    {
      classLabel
    }

    /** The record the object currently holds. */
    ghost function Value(): Record
      reads this, elements
      requires elements != null
    {
      Record(elements[..], classLabel)
    }

    /** write: the count, every element in array order, then the label. On an
        object whose array was never set, array.length throws before anything
        is written. */
    method Write(out: DataOutput) returns (r: Result<(), Exception>)
      requires elements != null ==> elements.Length < TWO_31
      modifies out
      ensures elements == null ==> r == Failure(NullPointerException) && out.written == old(out.written)
      ensures elements != null ==> r == Success(()) && out.written == old(out.written) + Encode(Value())
    {
      if elements == null {
        return Failure(NullPointerException);
      }
      var a := elements;
      ghost var start := out.written;
      out.WriteInt(a.Length as int32);
      ghost var header := out.written;
      WriteElements(out, a);
      ghost var body := out.written;
      out.WriteDouble(classLabel);
      WriteLayout(start, header, body, out.written, Value());
      r := Success(());
    }

    /** The loop of write: every element of a, in index order. */
    static method WriteElements(out: DataOutput, a: array<Double>)
      modifies out
      ensures out.written == old(out.written) + EncodeDoubles(a[..])
    {
      ghost var header := out.written;
      for k := 0 to a.Length
        invariant out.written == header + EncodeDoubles(a[..k])
      {
        out.WriteDouble(a[k]);
        EncodeDoublesSnoc(a[..k], a[k]);
        assert a[..k + 1] == a[..k] + [a[k]];
      }
      assert a[..a.Length] == a[..];
    }

    /** The loop of readFields: fills a in index order from the doubles that
        follow the count, or reports that the stream ended first. */
    static method ReadElements(inp: DataInput, a: array<Double>, ghost b: seq<byte>, ghost p0: nat)
        returns (ok: bool)
      requires inp.Valid() && p0 + 4 == inp.pos && b == inp.data[p0..]
      modifies inp, a
      ensures inp.Valid()
      ensures ok ==> inp.pos == p0 + 4 + 8 * a.Length
      ensures ok ==> forall j :: 0 <= j < a.Length ==> a[j] == DoubleAt(b, 4 + 8 * j)
      ensures !ok ==> |b| < EncodedSize(a.Length) && inp.pos == |inp.data|
    {
      for i := 0 to a.Length
        invariant inp.Valid() && inp.pos == p0 + 4 + 8 * i <= |inp.data|
        invariant forall j :: 0 <= j < i ==> a[j] == DoubleAt(b, 4 + 8 * j)
      {
        var d := inp.ReadDouble();
        if d.Failure? {
          return false;
        }
        SliceOfSuffix(inp.data, p0, 4 + 8 * i);
        a[i] := d.value;
      }
      ok := true;
    }

    /** readFields: reads the count, allocates an array of exactly that
        length, fills every index in order, then reads the label. */
    method ReadFields(inp: DataInput) returns (r: Result<(), Exception>)
      requires inp.Valid()
      modifies this, inp
      ensures inp.Valid()
      ensures var d := Decode(old(inp.data[inp.pos..]));
        && (r.Success? <==> d.Success?)
        && (d.Success? ==>
              && elements != null && fresh(elements)
              && Value() == d.value.0
              && inp.pos == old(inp.pos) + d.value.1)
        && (d.Failure? ==> r.error == d.error && classLabel == old(classLabel))
      ensures var b := old(inp.data[inp.pos..]);
        |b| < 4 || IntOfBytes(b[..4]) < 0 ==> elements == old(elements)
      ensures var b := old(inp.data[inp.pos..]);
        |b| >= 4 && IntOfBytes(b[..4]) >= 0 ==>
          elements != null && fresh(elements) && elements.Length == IntOfBytes(b[..4]) as int
      ensures r == Failure(EOFException) ==> inp.pos == |inp.data|
      ensures r == Failure(NegativeArraySizeException) ==> inp.pos == old(inp.pos) + 4
    {
      ghost var p0 := inp.pos;
      ghost var b := inp.data[p0..];
      var length := inp.ReadInt();
      if length.Failure? {
        assert Decode(b) == Failure(EOFException);
        return Failure(length.error);
      }
      assert b[..4] == inp.data[p0..p0 + 4];
      var n := length.value as int;
      if n < 0 {
        assert Decode(b) == Failure(NegativeArraySizeException);
        return Failure(NegativeArraySizeException);
      }
      var a := new Double[n];
      elements := a;
      var ok := ReadElements(inp, a, b, p0);
      if !ok {
        DecodeTruncated(b, n);
        return Failure(EOFException);
      }
      var l := inp.ReadDouble();
      if l.Failure? {
        DecodeTruncated(b, n);
        return Failure(l.error);
      }
      SliceOfSuffix(inp.data, p0, 4 + 8 * n);
      classLabel := l.value;
      DecodeOfSlots(b, Record(a[..], l.value));
      r := Success(());
    }
  }
}
