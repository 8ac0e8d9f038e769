/** The pieces of the Java platform that SVM.java relies on, modelled as values:
    fixed-width integers, doubles as raw IEEE-754 bit patterns, the big-endian
    byte encodings of java.io.DataOutput / DataInput, the decimal rendering of an
    int in string concatenation, and the exceptions the program can raise. */
module Java {
  import opened Wrappers

  newtype byte = x: int | 0 <= x < 0x100
  newtype int32 = x: int | -0x8000_0000 <= x < 0x8000_0000
  newtype uint64 = x: int | 0 <= x < 0x1_0000_0000_0000_0000

  /** A Java `double`, identified by its raw 64-bit IEEE-754 pattern. No
      arithmetic is defined on it here. */
  type Double = uint64

  const TWO_31: int := 0x8000_0000
  const TWO_32: int := 0x1_0000_0000
  const TWO_52: int := 0x10_0000_0000_0000

  /** The one NaN pattern that Double.doubleToLongBits produces. */
  const CANONICAL_NAN: uint64 := 0x7ff8_0000_0000_0000

  /** The exceptions the modelled code can throw. */
  datatype Exception =
    | EOFException                       // DataInput read past the end
    | NegativeArraySizeException         // new double[n] with n < 0
    | IndexOutOfBoundsException          // array or list index out of range
    | NumberFormatException(token: string) // Double.parseDouble rejected a token
    | NullPointerException               // a field read through a null array

  function Pow256(n: nat): (r: nat)
    ensures r >= 1
  {
    if n == 0 then 1 else 256 * Pow256(n - 1)
  }

  /** The n-byte big-endian representation of x, most significant byte first. */
  function BigEndian(x: nat, n: nat): (r: seq<byte>)
    requires x < Pow256(n)
    ensures |r| == n
  {
    if n == 0 then [] else BigEndian(x / 256, n - 1) + [(x % 256) as byte]
  }

  /** The number whose big-endian representation is s. */
  function FromBigEndian(s: seq<byte>): (r: nat)
    ensures r < Pow256(|s|)
  {
    if s == [] then 0 else FromBigEndian(s[..|s| - 1]) * 256 + s[|s| - 1] as nat
  }

  lemma {:induction false} FromBigEndianOfBigEndian(x: nat, n: nat)
    requires x < Pow256(n)
    ensures FromBigEndian(BigEndian(x, n)) == x
  {
    if n > 0 {
      var s := BigEndian(x, n);
      assert s[..n - 1] == BigEndian(x / 256, n - 1);
      FromBigEndianOfBigEndian(x / 256, n - 1);
    }
  }

  lemma {:induction false} BigEndianOfFromBigEndian(s: seq<byte>)
    ensures BigEndian(FromBigEndian(s), |s|) == s
  {
    if s != [] {
      var p := s[..|s| - 1];
      BigEndianOfFromBigEndian(p);
      var x := FromBigEndian(s);
      assert x / 256 == FromBigEndian(p);
      assert x % 256 == s[|s| - 1] as int;
      assert s == p + [s[|s| - 1]];
    }
  }

  /** The first byte of a big-endian number is its most significant digit. */
  lemma {:induction false} FromBigEndianCons(s: seq<byte>)
    requires |s| > 0
    ensures FromBigEndian(s) == s[0] as nat * Pow256(|s| - 1) + FromBigEndian(s[1..])
  {
    if |s| > 1 {
      var p := s[..|s| - 1];
      FromBigEndianCons(p);
      assert s[1..][..|s| - 2] == p[1..];
      var hi, q := s[0] as nat, Pow256(|s| - 2);
      assert Pow256(|s| - 1) == 256 * q;
      assert FromBigEndian(s) == (hi * q + FromBigEndian(p[1..])) * 256 + s[|s| - 1] as nat;
      assert FromBigEndian(s[1..]) == FromBigEndian(p[1..]) * 256 + s[|s| - 1] as nat;
      MulAssoc(hi, q, 256);
    }
  }

  lemma MulAssoc(a: nat, b: nat, c: nat)
    ensures (a * b) * c == a * (c * b)
  {
  }

  lemma TopByte(s: seq<byte>)
    requires |s| > 0
    ensures s[0] as nat * Pow256(|s| - 1) <= FromBigEndian(s) < (s[0] as nat + 1) * Pow256(|s| - 1)
  {
    FromBigEndianCons(s);
  }

  lemma Pow256Four()
    ensures Pow256(3) == 0x100_0000
    ensures Pow256(4) == TWO_32
  {
  }

  /** The bytes DataOutput.writeInt emits: the 32-bit two's-complement pattern
      of v, big-endian, so the top bit of the first byte is the sign. */
  function IntBytes(v: int32): (r: seq<byte>)
    ensures |r| == 4
    ensures (r[0] >= 0x80) == (v < 0)
  {
    Pow256Four();
    var u := if v < 0 then v as int + TWO_32 else v as int;
    FromBigEndianOfBigEndian(u, 4);
    TopByte(BigEndian(u, 4));
    BigEndian(u, 4)
  }

  /** The int DataInput.readInt returns for four bytes: negative exactly when
      the top bit of the first byte is set. */
  function IntOfBytes(b: seq<byte>): (r: int32)
    requires |b| == 4
    ensures (r < 0) == (b[0] >= 0x80)
  {
    Pow256Four();
    TopByte(b);
    var u := FromBigEndian(b);
    if u >= TWO_31 then (u - TWO_32) as int32 else u as int32
  }

  lemma IntRoundTrip(v: int32)
    ensures IntOfBytes(IntBytes(v)) == v
  {
    Pow256Four();
    FromBigEndianOfBigEndian(if v < 0 then v as int + TWO_32 else v as int, 4);
  }

  lemma IntBytesRoundTrip(b: seq<byte>)
    requires |b| == 4
    ensures IntBytes(IntOfBytes(b)) == b
  {
    Pow256Four();
    BigEndianOfFromBigEndian(b);
  }

  /** The bytes DataOutput.writeLong emits for a 64-bit pattern, big-endian:
      the first byte holds the pattern's top eight bits. */
  function LongBytes(bits: uint64): (r: seq<byte>)
    ensures |r| == 8
    ensures r[0] as int * 0x100_0000_0000_0000 <= bits as int < (r[0] as int + 1) * 0x100_0000_0000_0000
  {
    Pow256Eight();
    FromBigEndianOfBigEndian(bits as nat, 8);
    TopByte(BigEndian(bits as nat, 8));
    BigEndian(bits as nat, 8)
  }

  /** The 64-bit pattern DataInput.readLong assembles from eight bytes, the
      first byte read giving its top eight bits. */
  function LongOfBytes(b: seq<byte>): (r: uint64)
    requires |b| == 8
    ensures b[0] as int * 0x100_0000_0000_0000 <= r as int < (b[0] as int + 1) * 0x100_0000_0000_0000
  {
    Pow256Eight();
    TopByte(b);
    FromBigEndian(b) as uint64
  }

  lemma Pow256Eight()
    ensures Pow256(7) == 0x100_0000_0000_0000
    ensures Pow256(8) == 0x1_0000_0000_0000_0000
  {
  }

  lemma LongRoundTrip(bits: uint64)
    ensures LongOfBytes(LongBytes(bits)) == bits
  {
    Pow256Eight();
    FromBigEndianOfBigEndian(bits as nat, 8);
  }

  lemma LongBytesRoundTrip(b: seq<byte>)
    requires |b| == 8
    ensures LongBytes(LongOfBytes(b)) == b
  {
    Pow256Eight();
    BigEndianOfFromBigEndian(b);
  }

  /** A pattern is a NaN when its exponent field is all ones and its fraction
      is not zero. */
  predicate IsNaN(d: Double) {
    (d as int / TWO_52) % 0x800 == 0x7ff && d as int % TWO_52 != 0
  }

  /** Double.doubleToLongBits: every NaN becomes the canonical NaN, every other
      pattern is kept. This is what DataOutput.writeDouble writes. */
  function DoubleToLongBits(d: Double): (r: uint64)
    ensures IsNaN(r) == IsNaN(d)
    ensures !IsNaN(d) ==> r == d
    ensures IsNaN(d) ==> r == CANONICAL_NAN
  {
    if IsNaN(d) then CANONICAL_NAN else d
  }

  lemma DoubleToLongBitsIdempotent(d: Double)
    ensures DoubleToLongBits(DoubleToLongBits(d)) == DoubleToLongBits(d)
  {
  }

  /** The decimal digits Java's string concatenation renders for a
      non-negative int. */
  function DecimalString(n: nat): (s: string)
    ensures |s| >= 1
    ensures forall k :: 0 <= k < |s| ==> '0' <= s[k] <= '9'
    ensures s[0] == '0' ==> n == 0
  {
    if n < 10 then [Digit(n)] else DecimalString(n / 10) + [Digit(n % 10)]
  }

  function Digit(d: nat): (c: char)
    requires d < 10
    ensures '0' <= c <= '9'
  {
    ('0' as int + d) as char
  }

  /** Reads a string of decimal digits back as a number. */
  function ParseDecimal(s: string): nat
    requires forall k :: 0 <= k < |s| ==> '0' <= s[k] <= '9'
  {
    if s == [] then 0 else ParseDecimal(s[..|s| - 1]) * 10 + (s[|s| - 1] as int - '0' as int)
  }

  lemma {:induction false} ParseDecimalOfDecimalString(n: nat)
    ensures ParseDecimal(DecimalString(n)) == n
  {
    if n >= 10 {
      var s := DecimalString(n);
      assert s[..|s| - 1] == DecimalString(n / 10);
      ParseDecimalOfDecimalString(n / 10);
    }
  }

  /** Distinct numbers render as distinct strings. */
  lemma DecimalStringInjective(a: nat, b: nat)
    requires DecimalString(a) == DecimalString(b)
    ensures a == b
  {
    ParseDecimalOfDecimalString(a);
    ParseDecimalOfDecimalString(b);
  }

  /** java.io.DataOutput over a growing byte stream; `written` is everything
      emitted so far. */
  class DataOutput {
    var written: seq<byte>

    constructor ()
      ensures written == []
    {
      written := [];
    }

    /** DataOutput.writeInt. */
    method WriteInt(v: int32)
      modifies this
      ensures written == old(written) + IntBytes(v)
    {
      written := written + IntBytes(v);
    }

    /** DataOutput.writeDouble: writeLong(doubleToLongBits(d)). */
    method WriteDouble(d: Double)
      modifies this
      ensures written == old(written) + LongBytes(DoubleToLongBits(d))
    {
      written := written + LongBytes(DoubleToLongBits(d));
    }
  }

  /** java.io.DataInput over a fixed byte sequence read from position `pos`. A
      read that runs past the end consumes what is left and throws
      EOFException. */
  class DataInput {
    const data: seq<byte>
    var pos: nat

    ghost predicate Valid()
      reads this
    {
      pos <= |data|
    }

    constructor (data: seq<byte>)
      ensures Valid() && this.data == data && pos == 0
    {
      this.data := data;
      pos := 0;
    }

    /** DataInput.readFully of n bytes. */
    method ReadBytes(n: nat) returns (r: Result<seq<byte>, Exception>)
      requires Valid()
      modifies this
      ensures Valid()
      ensures old(pos) + n <= |data| ==> r == Success(data[old(pos)..old(pos) + n]) && pos == old(pos) + n
      ensures old(pos) + n > |data| ==> r == Failure(EOFException) && pos == |data|
    {
      if pos + n <= |data| {
        r := Success(data[pos..pos + n]);
        pos := pos + n;
      } else {
        r := Failure(EOFException);
        pos := |data|;
      }
    }

    /** DataInput.readInt. */
    method ReadInt() returns (r: Result<int32, Exception>)
      requires Valid()
      modifies this
      ensures Valid()
      ensures old(pos) + 4 <= |data| ==> r == Success(IntOfBytes(data[old(pos)..old(pos) + 4])) && pos == old(pos) + 4
      ensures old(pos) + 4 > |data| ==> r == Failure(EOFException) && pos == |data|
    {
      var b := ReadBytes(4);
      if b.Failure? {
        return Failure(b.error);
      }
      r := Success(IntOfBytes(b.value));
    }

    /** DataInput.readDouble: longBitsToDouble(readLong()), which keeps the
        pattern as read. */
    method ReadDouble() returns (r: Result<Double, Exception>)
      requires Valid()
      modifies this
      ensures Valid()
      ensures old(pos) + 8 <= |data| ==> r == Success(LongOfBytes(data[old(pos)..old(pos) + 8])) && pos == old(pos) + 8
      ensures old(pos) + 8 > |data| ==> r == Failure(EOFException) && pos == |data|
    {
      var b := ReadBytes(8);
      if b.Failure? {
        return Failure(b.error);
      }
      r := Success(LongOfBytes(b.value));
    }
  }
}
