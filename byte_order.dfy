/**
 * Big-endian readers (FreeType's FT_PEEK_ULONG / FT_READ_USHORT) and the
 * host-order store a `uint32_t*` assignment performs, over byte sequences.
 */
module ByteOrder {
  import opened FontTypes

  /** The uint32 whose big-endian bytes are b0, b1, b2, b3. */
  function Word(b0: byte, b1: byte, b2: byte, b3: byte): (r: uint32) {
    ((b0 as int * 0x100 + b1 as int) * 0x100 + b2 as int) * 0x100 + b3 as int
  }

  /** The big-endian uint32 at `at`. */
  function U32BE(s: seq<byte>, at: nat): uint32
    requires at + 4 <= |s|
  {
    Word(s[at], s[at + 1], s[at + 2], s[at + 3])
  }

  /** The big-endian uint16 at `at`. */
  function U16BE(s: seq<byte>, at: nat): (r: nat)
    requires at + 2 <= |s|
    ensures r < 0x1_0000
  {
    s[at] as int * 0x100 + s[at + 1] as int
  }

  /** A uint32 as four bytes, most significant first. */
  function BytesBE(v: uint32): (r: seq<byte>)
    ensures |r| == 4
  {
    [v / 0x100_0000, (v / 0x1_0000) % 0x100, (v / 0x100) % 0x100, v % 0x100]
  }

  /** A uint32 as four bytes, least significant first. */
  function BytesLE(v: uint32): (r: seq<byte>)
    ensures |r| == 4
  {
    [v % 0x100, (v / 0x100) % 0x100, (v / 0x1_0000) % 0x100, v / 0x100_0000]
  }

  /** Writing the bytes of a word gives back those bytes. */
  lemma BytesOfWord(b0: byte, b1: byte, b2: byte, b3: byte)
    ensures BytesBE(Word(b0, b1, b2, b3)) == [b0, b1, b2, b3]
  {
    var w := Word(b0, b1, b2, b3);
    var x1 := b0 as int * 0x100 + b1 as int;
    var x2 := x1 * 0x100 + b2 as int;
    assert w == x2 * 0x100 + b3 as int;
    assert w % 0x100 == b3 && w / 0x100 == x2;
    assert x2 % 0x100 == b2 && x2 / 0x100 == x1;
    assert x1 % 0x100 == b1 && x1 / 0x100 == b0;
    DivDiv(w, 0x100, 0x100);
    DivDiv(w, 0x1_0000, 0x100);
  }

  /** Reading the bytes of a value gives back the value. */
  lemma WordOfBytes(v: uint32)
    ensures var w := BytesBE(v); Word(w[0], w[1], w[2], w[3]) == v
  {
    var q1 := v / 0x100;
    var q2 := q1 / 0x100;
    var q3 := q2 / 0x100;
    assert v == q1 * 0x100 + v % 0x100;
    assert q1 == q2 * 0x100 + q1 % 0x100;
    assert q2 == q3 * 0x100 + q2 % 0x100;
    DivDiv(v, 0x100, 0x100);
    DivDiv(v, 0x1_0000, 0x100);
  }

  /** (x / a) / 256 == x / (a * 256) for a of 256 or 65536. */
  lemma DivDiv(x: nat, a: nat, b: nat)
    requires (a == 0x100 || a == 0x1_0000) && b == 0x100
    ensures (x / a) / b == x / (a * b)
  {
    var q := (x / a) / b;
    assert x == (x / a) * a + x % a;
    assert x / a == q * b + (x / a) % b;
    assert x == q * (a * b) + ((x / a) % b) * a + x % a;
  }

  /** `s` with the four bytes at `at` replaced by `w`. */
  function Splice(s: seq<byte>, at: nat, w: seq<byte>): (r: seq<byte>)
    requires |w| == 4 && at + 4 <= |s|
    ensures |r| == |s|
    ensures forall k {:trigger r[k]} :: 0 <= k < |s| && !(at <= k < at + 4) ==> r[k] == s[k]
    ensures forall k :: 0 <= k < 4 ==> r[at + k] == w[k]
  {
    seq(|s|, k requires 0 <= k < |s| => if at <= k < at + 4 then w[k - at] else s[k])
  }

  /** What `*(uint32_t*)(s + at) = v` leaves in memory on a host of the given byte order. */
  function StoreNative(littleEndian: bool, s: seq<byte>, at: nat, v: uint32): (r: seq<byte>)
    requires at + 4 <= |s|
    ensures |r| == |s|
  {
    Splice(s, at, if littleEndian then BytesLE(v) else BytesBE(v))
  }

  /** Reading the four bytes just spliced in reads the spliced word. */
  lemma PeekAfterSplice(s: seq<byte>, at: nat, w: seq<byte>)
    requires |w| == 4 && at + 4 <= |s|
    ensures U32BE(Splice(s, at, w), at) == Word(w[0], w[1], w[2], w[3])
  {
    var r := Splice(s, at, w);
    assert r[at] == w[0] && r[at + 1] == w[1] && r[at + 2] == w[2] && r[at + 3] == w[3];
  }

  /** Reading back a big-endian store gives the stored value. */
  lemma PeekAfterStoreBE(s: seq<byte>, at: nat, v: uint32)
    requires at + 4 <= |s|
    ensures U32BE(Splice(s, at, BytesBE(v)), at) == v
  {
    PeekAfterSplice(s, at, BytesBE(v));
    WordOfBytes(v);
  }

  /** A second splice at the same place overrides the first. */
  lemma SpliceTwice(s: seq<byte>, at: nat, w1: seq<byte>, w2: seq<byte>)
    requires |w1| == 4 && |w2| == 4 && at + 4 <= |s|
    ensures Splice(Splice(s, at, w1), at, w2) == Splice(s, at, w2)
  {
    var a, b := Splice(Splice(s, at, w1), at, w2), Splice(s, at, w2);
    assert forall k :: 0 <= k < |s| ==> a[k] == b[k];
  }

  /**
   * `p[0] = FT_PEEK_ULONG(p) - off; p[0] = FT_PEEK_ULONG(p);`: on either host
   * byte order the two stores together leave the big-endian bytes of the
   * first value in memory.
   */
  lemma DoubleStoreIsBigEndian(littleEndian: bool, s: seq<byte>, at: nat, v: uint32)
    requires at + 4 <= |s|
    ensures var s1 := StoreNative(littleEndian, s, at, v);
            StoreNative(littleEndian, s1, at, U32BE(s1, at)) == Splice(s, at, BytesBE(v))
  {
    var w := if littleEndian then BytesLE(v) else BytesBE(v);
    var s1 := Splice(s, at, w);
    PeekAfterSplice(s, at, w);
    var u := Word(w[0], w[1], w[2], w[3]);
    BytesOfWord(w[0], w[1], w[2], w[3]);
    var w2 := if littleEndian then BytesLE(u) else BytesBE(u);
    var be := BytesBE(v);
    if littleEndian {
      assert BytesBE(u) == [be[3], be[2], be[1], be[0]];
      assert BytesLE(u) == [be[0], be[1], be[2], be[3]];
    } else {
      WordOfBytes(v);
    }
    assert w2 == be;
    SpliceTwice(s, at, w, w2);
  }
}
