/**
 * FeatureRecord of the OpenType Feature List table ("OpenType Layout Common Table
 * Formats"): a 4-byte tag and a 2-byte offset, big-endian, read from a binary
 * input stream, and the tag rendered as its four characters.
 */
module FeatureRecords {
  import opened Wrappers

  type byte = x: int | 0 <= x < 0x100

  const TWO_32: int := 0x1_0000_0000

  /** The unsigned value of four bytes, most significant first. */
  function Recombine(b0: byte, b1: byte, b2: byte, b3: byte): (u: int)
    ensures 0 <= u < TWO_32
  {
    b0 * 0x100_0000 + b1 * 0x1_0000 + b2 * 0x100 + b3
  }

  /** readInt: four bytes as a Java int, wrapped into the signed 32-bit range. */
  function Int32FromBytes(b0: byte, b1: byte, b2: byte, b3: byte): (r: int)
    ensures -0x8000_0000 <= r < 0x8000_0000
    ensures r % TWO_32 == Recombine(b0, b1, b2, b3)
  {
    var u := Recombine(b0, b1, b2, b3);
    if u >= 0x8000_0000 then u - TWO_32 else u
  }

  /** readUnsignedShort: two bytes, most significant first. */
  function UInt16FromBytes(b0: byte, b1: byte): (r: int)
    ensures 0 <= r < 0x1_0000
  {
    b0 * 0x100 + b1
  }

  /** The tag's four bytes, most significant first: arithmetic shifts right by 24, 16, 8, 0 masked to 8 bits. */
  function TagBytes(tag: int): (bs: seq<byte>)
    ensures |bs| == 4
  {
    [(tag / 0x100_0000) % 0x100, (tag / 0x1_0000) % 0x100, (tag / 0x100) % 0x100, tag % 0x100]
  }

  /** getTagAsString: one character per tag byte, most significant first. */
  function TagAsString(tag: int): (s: string)
    ensures |s| == 4
    ensures forall i :: 0 <= i < 4 ==> 0 <= s[i] as int < 0x100 && s[i] as int == TagBytes(tag)[i]
  {
    var bs := TagBytes(tag);
    [bs[0] as char, bs[1] as char, bs[2] as char, bs[3] as char]
  }

  /** The six bytes a record is stored as. */
  function Encode(tag: int, offset: int): (bs: seq<byte>)
    requires 0 <= offset < 0x1_0000
    ensures |bs| == 6
  {
    TagBytes(tag) + [offset / 0x100, offset % 0x100]
  }

  /** The record in the first six bytes, if there are six. */
  function Decode(bs: seq<byte>): (r: Option<(int, int)>)
    ensures r.Some? <==> |bs| >= 6
    ensures r.Some? ==> -0x8000_0000 <= r.value.0 < 0x8000_0000 && 0 <= r.value.1 < 0x1_0000
  {
    if |bs| < 6 then None
    else Some((Int32FromBytes(bs[0], bs[1], bs[2], bs[3]), UInt16FromBytes(bs[4], bs[5])))
  }

  lemma SplitLow(t: int, m: int)
    requires m == 0x100 || m == 0x1_0000 || m == 0x100_0000
    ensures t % (0x100 * m) == ((t / 0x100) % m) * 0x100 + t % 0x100
  {
    var q := t / 0x100;
    var r := t % 0x100;
    var q2 := q / m;
    var r2 := q % m;
    assert t == 0x100 * q + r;
    assert q == m * q2 + r2;
    assert t == (0x100 * m) * q2 + (0x100 * r2 + r);
    ModUnique(t, 0x100 * m, q2, 0x100 * r2 + r);
  }

  lemma ModUnique(a: int, n: int, q: int, r: int)
    requires n > 0 && 0 <= r < n && a == n * q + r
    ensures a % n == r
  {
    var d := q - a / n;
    assert n * d == a % n - r;
  }

  /** Recombining the tag's four bytes gives back the tag modulo 2^32. */
  lemma TagBytesRecombine(tag: int)
    ensures var bs := TagBytes(tag); Recombine(bs[0], bs[1], bs[2], bs[3]) == tag % TWO_32
  {
    SplitLow(tag, 0x100_0000);
    SplitLow(tag / 0x100, 0x1_0000);
    SplitLow(tag / 0x1_0000, 0x100);
    assert tag / 0x100 / 0x100 == tag / 0x1_0000;
    assert tag / 0x1_0000 / 0x100 == tag / 0x100_0000;
  }

  /** Four bytes are determined by their big-endian value. */
  lemma RecombineInjective(a: seq<byte>, b: seq<byte>)
    requires |a| == 4 && |b| == 4
    requires Recombine(a[0], a[1], a[2], a[3]) == Recombine(b[0], b[1], b[2], b[3])
    ensures a == b
  {
    var a0: int, a1: int, a2: int, a3: int := a[0], a[1], a[2], a[3];
    var b0: int, b1: int, b2: int, b3: int := b[0], b[1], b[2], b[3];
    var x := a1 * 0x1_0000 + a2 * 0x100 + a3;
    var y := b1 * 0x1_0000 + b2 * 0x100 + b3;
    assert 0 <= x < 0x100_0000 && 0 <= y < 0x100_0000;
    assert a0 * 0x100_0000 + x == b0 * 0x100_0000 + y;
    assert a0 == b0;
    assert x == y;
    assert a1 == b1;
    assert a2 * 0x100 + a3 == b2 * 0x100 + b3;
    assert a2 == b2;
    assert a == [a0, a1, a2, a3] && b == [b0, b1, b2, b3];
  }

  /** The bytes of a signed 32-bit tag read back as that tag. */
  lemma Int32OfTagBytes(tag: int)
    requires -0x8000_0000 <= tag < 0x8000_0000
    ensures var bs := TagBytes(tag); Int32FromBytes(bs[0], bs[1], bs[2], bs[3]) == tag
  {
    var bs := TagBytes(tag);
    TagBytesRecombine(tag);
    var u := Recombine(bs[0], bs[1], bs[2], bs[3]);
    if tag >= 0 {
      ModUnique(tag, TWO_32, 0, tag);
      assert u == tag;
    } else {
      ModUnique(tag, TWO_32, -1, tag + TWO_32);
      assert u == tag + TWO_32;
    }
  }

  /** The tag bytes of a value read from four bytes are those four bytes. */
  lemma TagBytesOfInt32(b0: byte, b1: byte, b2: byte, b3: byte)
    ensures TagBytes(Int32FromBytes(b0, b1, b2, b3)) == [b0, b1, b2, b3]
  {
    var tag := Int32FromBytes(b0, b1, b2, b3);
    TagBytesRecombine(tag);
    RecombineInjective(TagBytes(tag), [b0, b1, b2, b3]);
  }

  /** Reading what was written gives back the tag and the offset. */
  lemma DecodeEncode(tag: int, offset: int)
    requires -0x8000_0000 <= tag < 0x8000_0000 && 0 <= offset < 0x1_0000
    ensures Decode(Encode(tag, offset)) == Some((tag, offset))
  {
    var bs := Encode(tag, offset);
    var tb := TagBytes(tag);
    Int32OfTagBytes(tag);
    assert bs[0] == tb[0] && bs[1] == tb[1] && bs[2] == tb[2] && bs[3] == tb[3];
    assert UInt16FromBytes(bs[4], bs[5]) == offset;
  }

  /** Writing what was read gives back the six bytes consumed. */
  lemma EncodeDecode(bs: seq<byte>)
    requires |bs| >= 6
    ensures Encode(Decode(bs).value.0, Decode(bs).value.1) == bs[..6]
  {
    var offset := UInt16FromBytes(bs[4], bs[5]);
    TagBytesOfInt32(bs[0], bs[1], bs[2], bs[3]);
    assert offset / 0x100 == bs[4] && offset % 0x100 == bs[5];
    assert bs[..6] == [bs[0], bs[1], bs[2], bs[3]] + [bs[4], bs[5]];
  }

  /** The tag string's character codes are exactly the four tag bytes read. */
  lemma TagAsStringOfBytes(bs: seq<byte>)
    requires |bs| >= 4
    ensures var s := TagAsString(Int32FromBytes(bs[0], bs[1], bs[2], bs[3]));
      forall i :: 0 <= i < 4 ==> s[i] as int == bs[i]
  {
    TagBytesOfInt32(bs[0], bs[1], bs[2], bs[3]);
  }

  /** A big-endian binary input stream over a byte sequence. */
  class DataInput {
    const bytes: seq<byte>
    var pos: nat

    ghost predicate Valid()
      reads this
    {
      pos <= |bytes|
    }

    constructor (bytes: seq<byte>)
      ensures Valid() && this.bytes == bytes && pos == 0
    {
      this.bytes := bytes;
      pos := 0;
    }

    /** readInt; at end of input it fails, having consumed what was left. */
    method ReadInt() returns (r: Option<int>)
      requires Valid()
      modifies this
      ensures Valid()
      ensures old(pos) + 4 <= |bytes| ==>
        r == Some(Int32FromBytes(bytes[old(pos)], bytes[old(pos) + 1], bytes[old(pos) + 2], bytes[old(pos) + 3])) &&
        pos == old(pos) + 4
      ensures old(pos) + 4 > |bytes| ==> r.None? && pos == |bytes|
    {
      if pos + 4 > |bytes| {
        pos := |bytes|;
        return None;
      }
      r := Some(Int32FromBytes(bytes[pos], bytes[pos + 1], bytes[pos + 2], bytes[pos + 3]));
      pos := pos + 4;
    }

    /** readUnsignedShort; at end of input it fails, having consumed what was left. */
    method ReadUnsignedShort() returns (r: Option<int>)
      requires Valid()
      modifies this
      ensures Valid()
      ensures old(pos) + 2 <= |bytes| ==> r == Some(UInt16FromBytes(bytes[old(pos)], bytes[old(pos) + 1])) && pos == old(pos) + 2
      ensures old(pos) + 2 > |bytes| ==> r.None? && pos == |bytes|
    {
      if pos + 2 > |bytes| {
        pos := |bytes|;
        return None;
      }
      r := Some(UInt16FromBytes(bytes[pos], bytes[pos + 1]));
      pos := pos + 2;
    }
  }

  class FeatureRecord {
    const tag: int
    const offset: int

    /** The tag is a signed 32-bit value and the offset an unsigned 16-bit one. */
    predicate Valid()
    {
      -0x8000_0000 <= tag < 0x8000_0000 && 0 <= offset < 0x1_0000
    }

    constructor (tag: int, offset: int)
      requires -0x8000_0000 <= tag < 0x8000_0000 && 0 <= offset < 0x1_0000
      ensures Valid() && this.tag == tag && this.offset == offset
    {
      this.tag := tag;
      this.offset := offset;
    }

    /**
     * The stream constructor: a record exactly when six bytes remain, holding the
     * tag and offset they decode to, and those six bytes are consumed.
     */
    static method Read(di: DataInput) returns (r: Option<FeatureRecord>)
      requires di.Valid()
      modifies di
      ensures di.Valid()
      ensures r.Some? <==> old(di.pos) + 6 <= |di.bytes|
      ensures r.Some? ==>
        && fresh(r.value)
        && r.value.Valid()
        && Decode(di.bytes[old(di.pos)..]) == Some((r.value.tag, r.value.offset))
        && di.pos == old(di.pos) + 6
      ensures r.None? ==> di.pos == |di.bytes|
    {
      var t := di.ReadInt();
      if t.None? {
        return None;
      }
      var o := di.ReadUnsignedShort();
      if o.None? {
        return None;
      }
      var record := new FeatureRecord(t.value, o.value);
      r := Some(record);
    }

    /** getTag: the tag as read, a signed 32-bit value. */
    function GetTag(): (r: int)
      requires Valid()
      ensures -0x8000_0000 <= r < 0x8000_0000 && r == tag
    {
      tag
    }

    /** getOffset: the offset as read, an unsigned 16-bit value. */
    function GetOffset(): (r: int)
      requires Valid()
      ensures 0 <= r < 0x1_0000 && r == offset
    {
      offset
    }

    /** getTagAsString */
    function GetTagAsString(): (s: string)
      ensures |s| == 4
      ensures forall i :: 0 <= i < 4 ==> s[i] as int == TagBytes(tag)[i]
    {
      TagAsString(tag)
    }
  }
}
