// The embedded default font: a base-85 text decoded to bytes, then an
// LZ-style stream (literal runs and back-references) checked by its length
// header and an Adler-32 trailer.
module FontDecode {
  import opened Common

  // ---------------------------------------------------------------------
  // Base 85
  // ---------------------------------------------------------------------

  /** The byte as a plain (signed) char sees it: bytes from 0x80 are negative. */
  function SignedChar(c: byte): int
  {
    if c >= 0x80 then c - 0x100 else c
  }

  /**
   * One base-85 digit: characters from '\\' on stand for c - 36, the others
   * for c - 35; the int result is converted to uint32, so negative values wrap.
   */
  function Decode85Digit(c: byte): (r: uint32)
    ensures r < 85 <==> 35 <= c <= 120
    ensures c < 35 || c >= 0x80 ==> r >= TwoTo32 - 163
  {
    var s := SignedChar(c);
    if s >= 92 then s - 36 else (s - 35) % TwoTo32
  }

  /** The base-85 value of digits, least significant first, in unbounded arithmetic. */
  function DigitsValue(g: seq<byte>): nat
  {
    if |g| == 0 then 0 else Decode85Digit(g[0]) + 85 * DigitsValue(g[1..])
  }

  /** The value of a five-character group, least significant digit first, in uint32 arithmetic. */
  function GroupValue(g: seq<byte>): uint32
    requires |g| == 5
  {
    DigitsValue(g) % TwoTo32
  }

  /** A uint32 stored little-endian: its bytes from the lowest up. */
  function Le32Bytes(v: uint32): (r: seq<byte>)
    ensures |r| == 4
  {
    var q1 := v / 0x100;
    var q2 := q1 / 0x100;
    var q3 := q2 / 0x100;
    [v % 0x100, q1 % 0x100, q2 % 0x100, q3 % 0x100]
  }

  /** The bytes that the first `count` five-character groups of src stand for, four per group. */
  function DecodeGroups(src: seq<byte>, count: nat): (r: seq<byte>)
    requires 5 * count <= |src|
    ensures |r| == 4 * count
  {
    if count == 0 then []
    else DecodeGroups(src, count - 1) + Le32Bytes(GroupValue(src[5 * count - 5..5 * count]))
  }

  /** The number of whole groups before the terminator. */
  function GroupCount(src: seq<byte>): (n: nat)
    requires |src| % 5 == 1
    ensures |src| == 5 * n + 1
  {
    |src| / 5
  }

  /** The first character of group g. */
  function GroupStart(src: seq<byte>, g: nat): byte
    requires 5 * g < |src|
  {
    src[5 * g]
  }

  /**
   * A C string of whole base-85 groups: the terminator closes the last
   * group and no group before it starts with a zero byte.
   */
  predicate Base85String(src: seq<byte>)
  {
    |src| % 5 == 1 && src[|src| - 1] == 0 &&
    forall g :: 0 <= g < GroupCount(src) ==> GroupStart(src, g) != 0
  }

  /** The four bytes of one group stored little-endian at dst[j..j + 4]; nothing else changes. */
  method StoreGroup(dst: array<byte>, j: nat, value: uint32)
    requires j + 4 <= dst.Length
    modifies dst
    ensures dst[..j + 4] == old(dst[..j]) + Le32Bytes(value)
    ensures dst[j + 4..] == old(dst[j + 4..])
  {
    dst[j] := value % 0x100;
    dst[j + 1] := value / 0x100 % 0x100;
    dst[j + 2] := value / 0x100 / 0x100 % 0x100;
    dst[j + 3] := value / 0x100 / 0x100 / 0x100 % 0x100;
  }

  /** In a base-85 string, group g starts inside the text, and at the terminator exactly when it is the last. */
  lemma GroupAt(src: seq<byte>, g: nat)
    requires Base85String(src) && g <= GroupCount(src)
    ensures 5 * g < |src|
    ensures GroupStart(src, g) == 0 <==> g == GroupCount(src)
  {
  }

  /** One pass of the decoding loop: group g of src becomes bytes 4g to 4g + 3 of dst. */
  method DecodeGroup(src: seq<byte>, i: nat, dst: array<byte>, j: nat, ghost g: nat)
    requires i == 5 * g && j == 4 * g && i + 5 <= |src| && j + 4 <= dst.Length
    requires dst[..j] == DecodeGroups(src, g)
    modifies dst
    ensures dst[..j + 4] == DecodeGroups(src, g + 1)
    ensures dst[j + 4..] == old(dst[j + 4..])
  {
    StoreGroup(dst, j, GroupValue(src[i..i + 5]));
  }

  /**
   * pl__decode85: decodes group after group, four bytes out for five
   * characters in, until a group starts at the terminator.
   */
  method Decode85(src: seq<byte>, dst: array<byte>)
    requires Base85String(src)
    requires dst.Length >= GroupCount(src) * 4
    modifies dst
    ensures dst[..GroupCount(src) * 4] == DecodeGroups(src, GroupCount(src))
    ensures dst[GroupCount(src) * 4..] == old(dst[GroupCount(src) * 4..])
  {
    ghost var n := GroupCount(src);
    var i, j := 0, 0;
    ghost var g := 0;
    while src[i] != 0
      invariant g <= n && i == 5 * g && j == 4 * g && i < |src|
      invariant dst[..j] == DecodeGroups(src, g)
      invariant dst[j..] == old(dst[j..])
      decreases n - g
    {
      GroupAt(src, g);
      DecodeGroup(src, i, dst, j, g);
      i, j, g := i + 5, j + 4, g + 1;
    }
    GroupAt(src, g);
  }

  /** The character that encodes digit d: d + 35, skipping the backslash. */
  function Digit85Char(d: nat): byte
    requires d < 85
  {
    if d < 57 then d + 35 else d + 36
  }

  /** A uint32 as five base-85 characters, least significant digit first. */
  function Group85(v: uint32): (r: seq<byte>)
    ensures |r| == 5
  {
    var q1 := v / 85;
    var q2 := q1 / 85;
    var q3 := q2 / 85;
    var q4 := q3 / 85;
    [Digit85Char(v % 85), Digit85Char(q1 % 85), Digit85Char(q2 % 85), Digit85Char(q3 % 85), Digit85Char(q4)]
  }

  /** The little-endian value of four bytes. */
  function Le32Value(b: seq<byte>): uint32
    requires |b| == 4
  {
    b[0] as int + 0x100 * (b[1] as int) + 0x10000 * (b[2] as int) + 0x1000000 * (b[3] as int)
  }

  /** The base-85 text of the first `count` 4-byte words of data. */
  function EncodeWords(data: seq<byte>, count: nat): (r: seq<byte>)
    requires 4 * count <= |data|
    ensures |r| == 5 * count
  {
    if count == 0 then []
    else EncodeWords(data, count - 1) + Group85(Le32Value(data[4 * count - 4..4 * count]))
  }

  /** Every digit character decodes back to its digit, and none is zero or a backslash. */
  lemma DigitRoundTrip(d: nat)
    requires d < 85
    ensures Decode85Digit(Digit85Char(d)) == d
    ensures 35 <= Digit85Char(d) < 0x80 && Digit85Char(d) != 92
  {
  }

  /** The characters of a group are digit characters: never zero, never a backslash. */
  lemma GroupChars(v: uint32)
    ensures forall k :: 0 <= k < 5 ==> 35 <= Group85(v)[k] < 0x80 && Group85(v)[k] != 92
  {
    var q1 := v / 85;
    var q2 := q1 / 85;
    var q3 := q2 / 85;
    DigitRoundTrip(v % 85);
    DigitRoundTrip(q1 % 85);
    DigitRoundTrip(q2 % 85);
    DigitRoundTrip(q3 % 85);
    DigitRoundTrip(q3 / 85);
  }

  /** A group decodes back to the value it encodes. */
  lemma GroupRoundTrip(v: uint32)
    ensures GroupValue(Group85(v)) == v
  {
    var g := Group85(v);
    var q1 := v / 85;
    var q2 := q1 / 85;
    var q3 := q2 / 85;
    var q4 := q3 / 85;
    assert DigitsValue(g[4..]) == q4 by {
      DigitRoundTrip(q4);
      assert g[4..][1..] == [];
    }
    assert DigitsValue(g[3..]) == q3 by {
      DigitRoundTrip(q3 % 85);
      assert g[3..][1..] == g[4..];
    }
    assert DigitsValue(g[2..]) == q2 by {
      DigitRoundTrip(q2 % 85);
      assert g[2..][1..] == g[3..];
    }
    assert DigitsValue(g[1..]) == q1 by {
      DigitRoundTrip(q1 % 85);
      assert g[1..][1..] == g[2..];
    }
    DigitRoundTrip(v % 85);
  }

  /** Storing a word little-endian gives back its four bytes. */
  lemma Le32RoundTrip(b: seq<byte>)
    requires |b| == 4
    ensures Le32Bytes(Le32Value(b)) == b
  {
    var v := Le32Value(b);
    assert v == b[0] as int + 0x100 * (b[1] as int + 0x100 * (b[2] as int + 0x100 * (b[3] as int)));
    var q1 := v / 0x100;
    assert q1 == b[1] as int + 0x100 * (b[2] as int + 0x100 * (b[3] as int));
    var q2 := q1 / 0x100;
    assert q2 == b[2] as int + 0x100 * (b[3] as int);
    assert q2 / 0x100 == b[3];
  }

  /** The decoded groups depend only on the characters of those groups. */
  lemma {:induction false} DecodeGroupsPrefix(src: seq<byte>, other: seq<byte>, count: nat)
    requires 5 * count <= |src| && 5 * count <= |other| && src[..5 * count] == other[..5 * count]
    ensures DecodeGroups(src, count) == DecodeGroups(other, count)
  {
    if count > 0 {
      assert src[..5 * count - 5] == src[..5 * count][..5 * count - 5];
      assert other[..5 * count - 5] == other[..5 * count][..5 * count - 5];
      DecodeGroupsPrefix(src, other, count - 1);
      assert src[5 * count - 5..5 * count] == src[..5 * count][5 * count - 5..];
      assert other[5 * count - 5..5 * count] == other[..5 * count][5 * count - 5..];
    }
  }

  /** Decoding a text with one more group appended adds that group's four bytes. */
  lemma DecodeLastGroup(prev: seq<byte>, group: seq<byte>, count: nat)
    requires count > 0 && |prev| == 5 * (count - 1) && |group| == 5
    ensures DecodeGroups(prev + group, count) == DecodeGroups(prev, count - 1) + Le32Bytes(GroupValue(group))
  {
    var text := prev + group;
    assert text[5 * count - 5..5 * count] == group;
    assert text[..5 * count - 5] == prev[..5 * count - 5];
    DecodeGroupsPrefix(text, prev, count - 1);
  }

  /** A longer prefix is the shorter one followed by the bytes between them. */
  lemma PrefixExtends(data: seq<byte>, a: nat, b: nat)
    requires a <= b <= |data|
    ensures data[..b] == data[..a] + data[a..b]
  {
  }

  /** Decoding the text of the first `count` words gives those words back. */
  lemma {:induction false} Base85RoundTrip(data: seq<byte>, count: nat)
    requires 4 * count <= |data|
    ensures DecodeGroups(EncodeWords(data, count), count) == data[..4 * count]
  {
    if count > 0 {
      var prev := EncodeWords(data, count - 1);
      var word := data[4 * count - 4..4 * count];
      var group := Group85(Le32Value(word));
      assert EncodeWords(data, count) == prev + group;
      DecodeLastGroup(prev, group, count);
      Base85RoundTrip(data, count - 1);
      assert Le32Bytes(GroupValue(group)) == word by {
        GroupRoundTrip(Le32Value(word));
        Le32RoundTrip(word);
      }
      PrefixExtends(data, 4 * (count - 1), 4 * count);
    }
  }

  /** Every character of the encoded text is a digit character: never zero, never a backslash. */
  lemma {:induction false} EncodedDigits(data: seq<byte>, count: nat)
    requires 4 * count <= |data|
    ensures forall k :: 0 <= k < 5 * count ==> 35 <= EncodeWords(data, count)[k] < 0x80 && EncodeWords(data, count)[k] != 92
  {
    if count > 0 {
      EncodedDigits(data, count - 1);
      GroupChars(Le32Value(data[4 * count - 4..4 * count]));
    }
  }

  /** The encoded text of whole words, with its terminator, is a string pl__decode85 accepts. */
  lemma EncodedIsBase85String(data: seq<byte>, count: nat)
    requires 4 * count <= |data|
    ensures Base85String(EncodeWords(data, count) + [0])
  {
    var s := EncodeWords(data, count) + [0];
    EncodedDigits(data, count);
    assert |s| / 5 == count;
    forall g | 0 <= g < count
      ensures GroupStart(s, g) != 0
    {
      assert s[5 * g] == EncodeWords(data, count)[5 * g];
    }
  }

  // ---------------------------------------------------------------------
  // Adler-32
  // ---------------------------------------------------------------------

  /** The Adler-32 modulus: the largest prime below 2^16. */
  const AdlerMod: nat := 65521

  /** The longest run of bytes whose sums cannot overflow 32 bits before reduction. */
  const AdlerBlock: nat := 5552

  /** The sum of the bytes. */
  function ByteSum(data: seq<byte>): nat
  {
    if |data| == 0 then 0 else ByteSum(data[..|data| - 1]) + data[|data| - 1]
  }

  /** The sum, over every prefix of the data, of a0 plus that prefix's byte sum. */
  function RunningSum(a0: nat, data: seq<byte>): nat
  {
    if |data| == 0 then 0 else RunningSum(a0, data[..|data| - 1]) + a0 + ByteSum(data)
  }

  /**
   * The Adler-32 checksum of the data, continued from `seed`: the low half
   * of the seed is the running byte sum A, the high half the sum B of the A
   * values, both taken modulo 65521 once data is added.
   */
  function Adler32Spec(seed: uint32, data: seq<byte>): uint32
  {
    if |data| == 0 then seed
    else
      var a := (seed % 0x10000 + ByteSum(data)) % AdlerMod;
      var b := (seed / 0x10000 + RunningSum(seed % 0x10000, data)) % AdlerMod;
      b * 0x10000 + a
  }

  /**
   * Adler-32 as section 2.2 of RFC 1950 defines it: A starts at 1, B at 0,
   * and each byte does A := (A + byte) mod 65521, B := (B + A) mod 65521.
   */
  function AdlerRfc(data: seq<byte>): (r: (nat, nat))
    ensures r.0 < AdlerMod && r.1 < AdlerMod
  {
    if |data| == 0 then (1, 0)
    else
      var p := AdlerRfc(data[..|data| - 1]);
      var a := (p.0 + data[|data| - 1]) % AdlerMod;
      (a, (p.1 + a) % AdlerMod)
  }

  /** Adding congruent values gives congruent sums. */
  lemma AddCongruent(x1: int, y1: int, x2: int, y2: int)
    requires x1 % AdlerMod == y1 % AdlerMod && x2 % AdlerMod == y2 % AdlerMod
    ensures (x1 + x2) % AdlerMod == (y1 + y2) % AdlerMod
  {
    assert x1 == AdlerMod * (x1 / AdlerMod) + x1 % AdlerMod;
    assert y1 == AdlerMod * (y1 / AdlerMod) + y1 % AdlerMod;
    assert x2 == AdlerMod * (x2 / AdlerMod) + x2 % AdlerMod;
    assert y2 == AdlerMod * (y2 / AdlerMod) + y2 % AdlerMod;
    var k := x1 / AdlerMod + x2 / AdlerMod - y1 / AdlerMod - y2 / AdlerMod;
    assert x1 + x2 == y1 + y2 + AdlerMod * k;
    ModShift(y1 + y2, k);
  }

  /** Adding a multiple of the modulus leaves the residue unchanged. */
  lemma ModShift(z: int, k: int)
    ensures (z + AdlerMod * k) % AdlerMod == z % AdlerMod
  {
  }

  /** Reducing twice is reducing once. */
  lemma ModMod(z: int)
    ensures (z % AdlerMod) % AdlerMod == z % AdlerMod
  {
  }

  /** The RFC 1950 definition computes the two sums of the summed form, reduced. */
  lemma {:induction false} AdlerRfcSums(data: seq<byte>)
    ensures AdlerRfc(data) == ((1 + ByteSum(data)) % AdlerMod, RunningSum(1, data) % AdlerMod)
    decreases |data|
  {
    if |data| > 0 {
      var init, x := data[..|data| - 1], data[|data| - 1];
      AdlerRfcSums(init);
      var p := AdlerRfc(init);
      ModMod(1 + ByteSum(init));
      AddCongruent(p.0, 1 + ByteSum(init), x, x);
      var a := (p.0 + x) % AdlerMod;
      assert a == (1 + ByteSum(data)) % AdlerMod;
      ModMod(RunningSum(1, init));
      ModMod(1 + ByteSum(data));
      AddCongruent(p.1, RunningSum(1, init), a, 1 + ByteSum(data));
      assert RunningSum(1, data) == RunningSum(1, init) + (1 + ByteSum(data));
    }
  }

  /** Continued from seed 1, the checksum is the RFC 1950 Adler-32 of the data. */
  lemma AdlerRfcAgrees(data: seq<byte>)
    ensures Adler32Spec(1, data) == AdlerRfc(data).1 * 0x10000 + AdlerRfc(data).0
  {
    AdlerRfcSums(data);
  }

  /** The state of the checksum loop after p bytes, up to reduction. */
  ghost predicate AdlerTracks(seed: uint32, data: seq<byte>, p: nat, s1: int, s2: int)
    requires p <= |data|
  {
    s1 % AdlerMod == (seed % 0x10000 + ByteSum(data[..p])) % AdlerMod &&
    s2 % AdlerMod == (seed / 0x10000 + RunningSum(seed % 0x10000, data[..p])) % AdlerMod
  }

  /** One byte of the unreduced loop keeps the sums congruent to the specification. */
  lemma AdlerByte(seed: uint32, data: seq<byte>, p: nat, s1: int, s2: int, n1: int, n2: int)
    requires p < |data| && AdlerTracks(seed, data, p, s1, s2)
    requires n1 == s1 + data[p] && n2 == s2 + n1
    ensures AdlerTracks(seed, data, p + 1, n1, n2)
  {
    var a0 := seed % 0x10000;
    assert data[..p + 1][..p] == data[..p];
    assert ByteSum(data[..p + 1]) == ByteSum(data[..p]) + data[p];
    AddCongruent(s1, a0 + ByteSum(data[..p]), data[p], data[p]);
    AddCongruent(s2, seed / 0x10000 + RunningSum(a0, data[..p]), n1, a0 + ByteSum(data[..p + 1]));
  }

  /** Reducing the sums keeps them congruent. */
  lemma AdlerReduce(seed: uint32, data: seq<byte>, p: nat, s1: int, s2: int)
    requires p <= |data| && AdlerTracks(seed, data, p, s1, s2)
    ensures AdlerTracks(seed, data, p, s1 % AdlerMod, s2 % AdlerMod)
  {
  }

  /** 1 + 2 + ... + j: how often the byte bound 255 enters s2 after j bytes of a block. */
  function Triangle(j: nat): nat
  {
    if j == 0 then 0 else Triangle(j - 1) + j
  }

  /** After at most 5552 bytes of a block the unreduced s2 is still below 2^32. */
  lemma {:induction false} BlockBound(j: nat)
    requires j <= AdlerBlock
    ensures 0xFFFF * (j + 1) + 255 * Triangle(j) < TwoTo32
  {
    TriangleBound(j);
  }

  lemma {:induction false} TriangleBound(j: nat)
    requires j <= AdlerBlock
    ensures Triangle(j) <= Triangle(AdlerBlock) && Triangle(AdlerBlock) == 15415128
    decreases AdlerBlock - j
  {
    if j < AdlerBlock {
      TriangleBound(j + 1);
    } else {
      TriangleClosed(AdlerBlock);
    }
  }

  lemma {:induction false} TriangleClosed(j: nat)
    ensures 2 * Triangle(j) == j * (j + 1)
  {
    if j > 0 {
      TriangleClosed(j - 1);
    }
  }

  /**
   * The inner loops of pl__adler32: add `count` bytes from position p to the
   * unreduced sums. The source unrolls this eight bytes at a time; the loop
   * here adds the same bytes in the same order one by one. Starting from
   * sums below 2^16, at most 5552 bytes never overflow 32 bits.
   */
  method AddBlock(ghost seed: uint32, data: seq<byte>, p: nat, count: nat, s1: uint32, s2: uint32)
    returns (t1: uint32, t2: uint32)
    requires p + count <= |data| && count <= AdlerBlock && s1 <= 0xFFFF && s2 <= 0xFFFF
    requires AdlerTracks(seed, data, p, s1, s2)
    ensures AdlerTracks(seed, data, p + count, t1, t2)
  {
    t1, t2 := s1, s2;
    var j := 0;
    while j < count
      invariant 0 <= j <= count
      invariant t1 <= 0xFFFF + 255 * j
      invariant t2 <= 0xFFFF * (j + 1) + 255 * Triangle(j)
      invariant AdlerTracks(seed, data, p + j, t1, t2)
    {
      BlockBound(j + 1);
      ghost var o1, o2 := t1, t2;
      t1 := t1 + data[p + j];
      t2 := t2 + t1;
      AdlerByte(seed, data, p + j, o1, o2, t1, t2);
      j := j + 1;
    }
  }

  /**
   * pl__adler32: the bytes are added in blocks whose unreduced sums fit in
   * 32 bits (the first block takes the remainder modulo 5552), each block
   * ending with both sums reduced.
   */
  method Adler32(seed: uint32, data: seq<byte>) returns (r: uint32)
    requires |data| < TwoTo32
    ensures r == Adler32Spec(seed, data)
  {
    var s1: uint32 := seed % 0x10000;
    var s2: uint32 := seed / 0x10000;
    var remaining: nat := |data|;
    var blockLen: nat := |data| % AdlerBlock;
    var p: nat := 0;
    ghost var reduced := false;
    ghost var blocks: nat := |data| / AdlerBlock;
    assert |data| == AdlerBlock * blocks + blockLen;
    while remaining != 0
      invariant p + remaining == |data| && s1 <= 0xFFFF && s2 <= 0xFFFF
      invariant AdlerTracks(seed, data, p, s1, s2)
      invariant !reduced ==> remaining == |data| == AdlerBlock * blocks + blockLen && blockLen < AdlerBlock
      invariant !reduced ==> s1 == seed % 0x10000 && s2 == seed / 0x10000
      invariant reduced ==> remaining == AdlerBlock * blocks && blockLen == AdlerBlock
      invariant reduced ==> s1 < AdlerMod && s2 < AdlerMod && |data| > 0
      decreases remaining, if reduced then 0 else 1
    {
      s1, s2 := AddBlock(seed, data, p, blockLen, s1, s2);
      p := p + blockLen;
      AdlerReduce(seed, data, p, s1, s2);
      s1 := s1 % AdlerMod;
      s2 := s2 % AdlerMod;
      remaining := remaining - blockLen;
      if reduced {
        blocks := blocks - 1;
      }
      blockLen := AdlerBlock;
      reduced := true;
    }
    if reduced {
      AdlerResult(seed, data, s1, s2);
    }
    r := s2 * 0x10000 + s1;
  }

  /** Reduced sums that track the whole data give the checksum. */
  lemma AdlerResult(seed: uint32, data: seq<byte>, s1: nat, s2: nat)
    requires s1 < AdlerMod && s2 < AdlerMod && AdlerTracks(seed, data, |data|, s1, s2)
    ensures |data| > 0 ==> s2 * 0x10000 + s1 == Adler32Spec(seed, data)
  {
    assert data[..|data|] == data;
  }

  // ---------------------------------------------------------------------
  // The compressed stream
  // ---------------------------------------------------------------------

  /** MV_IN2_: two bytes read big-endian. */
  function Be16(s: seq<byte>, k: nat): (r: nat)
    requires k + 2 <= |s|
    ensures r < 0x10000
  {
    s[k] as int * 0x100 + s[k + 1]
  }

  /** MV_IN3_: three bytes read big-endian. */
  function Be24(s: seq<byte>, k: nat): (r: nat)
    requires k + 3 <= |s|
    ensures r < 0x1000000
  {
    s[k] as int * 0x10000 + Be16(s, k + 1)
  }

  /** MV_IN4_: four bytes read big-endian. */
  function Be32(s: seq<byte>, k: nat): uint32
    requires k + 4 <= |s|
  {
    s[k] as int * 0x1000000 + Be24(s, k + 1)
  }

  /** The first word of every stream. */
  const StreamMagic: uint32 := 0x57bC0000

  /**
   * pl__decompress_length: the decompressed size stored big-endian in bytes
   * 8 to 11 of the stream; 0 for a NULL stream.
   */
  function DecompressLength(input: Option<seq<byte>>): (r: uint32)
    requires input.Some? ==> |input.value| >= 12
    ensures input.None? ==> r == 0
    ensures input.Some? ==> Be32Bytes(r) == input.value[8..12]
  {
    match input
    case None => 0
    case Some(s) => Be32ReadBack(s, 8); Be32(s, 8)
  }

  /** A uint32 as four bytes, most significant first. */
  function Be32Bytes(v: uint32): (r: seq<byte>)
    ensures |r| == 4
  {
    var q1 := v / 0x100;
    var q2 := q1 / 0x100;
    [q2 / 0x100, q2 % 0x100, q1 % 0x100, v % 0x100]
  }

  /** Writing back a word read big-endian gives the four bytes it was read from. */
  lemma Be32ReadBack(s: seq<byte>, k: nat)
    requires k + 4 <= |s|
    ensures Be32Bytes(Be32(s, k)) == s[k..k + 4]
  {
    var v := Be32(s, k);
    var q1 := v / 0x100;
    var q2 := q1 / 0x100;
    assert v == 0x100 * (0x100 * (0x100 * (s[k] as int) + s[k + 1]) + s[k + 2]) + s[k + 3];
    assert q1 == 0x100 * (0x100 * (s[k] as int) + s[k + 1]) + s[k + 2] && v % 0x100 == s[k + 3];
    assert q2 == 0x100 * (s[k] as int) + s[k + 1] && q1 % 0x100 == s[k + 2];
    assert q2 / 0x100 == s[k] && q2 % 0x100 == s[k + 1];
  }

  /** A stream header announcing `size` decompressed bytes; its last word is not read. */
  function StreamHeader(size: uint32, tail: seq<byte>): (r: seq<byte>)
    requires |tail| == 4
    ensures |r| == 16
  {
    Be32Bytes(StreamMagic) + [0, 0, 0, 0] + Be32Bytes(size) + tail
  }

  /** Reading a big-endian word back gives the value written. */
  lemma Be32RoundTrip(v: uint32, s: seq<byte>, k: nat)
    requires k + 4 <= |s| && s[k..k + 4] == Be32Bytes(v)
    ensures Be32(s, k) == v
  {
    var q1 := v / 0x100;
    var q2 := q1 / 0x100;
    assert s[k] == q2 / 0x100 && s[k + 1] == q2 % 0x100;
    assert s[k + 2] == q1 % 0x100 && s[k + 3] == v % 0x100;
    assert q2 == 0x100 * (q2 / 0x100) + q2 % 0x100;
    assert q1 == 0x100 * q2 + q1 % 0x100;
    assert v == 0x100 * q1 + v % 0x100;
  }

  /** The length read from a header is the size it was written with, whatever follows. */
  lemma HeaderLength(size: uint32, tail: seq<byte>, rest: seq<byte>)
    requires |tail| == 4
    ensures DecompressLength(Some(StreamHeader(size, tail) + rest)) == size
    ensures Be32(StreamHeader(size, tail) + rest, 0) == StreamMagic
    ensures Be32(StreamHeader(size, tail) + rest, 4) == 0
  {
    var s := StreamHeader(size, tail) + rest;
    Be32RoundTrip(size, s, 8);
    Be32RoundTrip(StreamMagic, s, 0);
  }

  /**
   * A decoded token: a literal run of `len` input bytes starting at `src`, a
   * back-reference copying `len` bytes from `dist` bytes back in the output,
   * or a byte that starts no token. `size` is the number of input bytes the
   * token occupies, literal bytes included.
   */
  datatype Token =
    | Lit(src: nat, len: nat, size: nat)
    | Match(dist: nat, len: nat, size: nat)
    | NoToken

  /** The header bytes the token at i needs beyond its first one. */
  function TokenHeaderSize(b: byte): nat
  {
    if b >= 0x80 then 2
    else if b >= 0x40 then 3
    else if b >= 0x20 then 1
    else if b >= 0x18 then 4
    else if b >= 0x10 then 5
    else if b >= 0x08 then 2
    else if b == 0x07 then 3
    else if b == 0x06 then 5
    else if b == 0x04 then 6
    else 1
  }

  /**
   * The token that starts at input position i, as pl__decompress_token
   * dispatches on its first byte; None when its header runs past the input.
   */
  function ParseToken(s: seq<byte>, i: nat): (r: Option<Token>)
    ensures r.None? <==> i + (if i < |s| then TokenHeaderSize(s[i]) else 1) > |s|
    ensures r.Some? && r.value.Lit? ==> r.value.src + r.value.len == i + r.value.size && r.value.src > i
    ensures r.Some? && !r.value.NoToken? ==> r.value.size >= 2 && r.value.len >= 1
    ensures r.Some? && r.value.Match? ==> r.value.dist >= 1 && i + r.value.size <= |s|
    ensures r.Some? && r.value.NoToken? <==> r.Some? && s[i] in {0x00, 0x01, 0x02, 0x03, 0x05}
  {
    if i >= |s| || i + TokenHeaderSize(s[i]) > |s| then None
    else
      var b := s[i];
      if b >= 0x80 then Some(Match(s[i + 1] as int + 1, b as int - 0x80 + 1, 2))
      else if b >= 0x40 then Some(Match(Be16(s, i) - 0x4000 + 1, s[i + 2] as int + 1, 3))
      else if b >= 0x20 then Some(Lit(i + 1, b as int - 0x20 + 1, 1 + (b as int - 0x20 + 1)))
      else if b >= 0x18 then Some(Match(Be24(s, i) - 0x180000 + 1, s[i + 3] as int + 1, 4))
      else if b >= 0x10 then Some(Match(Be24(s, i) - 0x100000 + 1, Be16(s, i + 3) + 1, 5))
      else if b >= 0x08 then Some(Lit(i + 2, Be16(s, i) - 0x0800 + 1, 2 + (Be16(s, i) - 0x0800 + 1)))
      else if b == 0x07 then Some(Lit(i + 3, Be16(s, i + 1) + 1, 3 + (Be16(s, i + 1) + 1)))
      else if b == 0x06 then Some(Match(Be24(s, i + 1) + 1, s[i + 4] as int + 1, 5))
      else if b == 0x04 then Some(Match(Be24(s, i + 1) + 1, Be16(s, i + 4) + 1, 6))
      else Some(NoToken)
  }

  /**
   * The output after a back-reference: `len` bytes appended one at a time,
   * each a copy of the byte `dist` places before it, so a distance shorter
   * than the length repeats the bytes just written.
   */
  function MatchBytes(w: seq<byte>, dist: nat, len: nat): (r: seq<byte>)
    requires 1 <= dist <= |w|
    ensures |r| == |w| + len && r[..|w|] == w
    ensures forall k :: |w| <= k < |r| ==> r[k] == r[k - dist]
  {
    if len == 0 then w
    else
      var v := MatchBytes(w, dist, len - 1);
      v + [v[|v| - dist]]
  }

  /** A back-reference at least as far back as it is long copies a slice of the earlier output. */
  lemma {:induction false} MatchWithoutOverlap(w: seq<byte>, dist: nat, len: nat)
    requires 1 <= dist <= |w| && len <= dist
    ensures MatchBytes(w, dist, len) == w + w[|w| - dist..|w| - dist + len]
  {
    var r := MatchBytes(w, dist, len);
    forall k | |w| <= k < |r|
      ensures r[k] == w[k - dist]
    {
      assert r[k] == r[k - dist];
      assert k - dist < |w|;
    }
    assert r == w + w[|w| - dist..|w| - dist + len];
  }

  /** What one token does to the input position and the output written so far. */
  datatype TokenResult =
    | Advanced(next: nat, output: seq<byte>)
    | Overran
    | NoAdvance
    | Truncated

  /**
   * The effect of pl__decompress_token on the output `w` written so far: a
   * token that would write past the announced size, or a back-reference to
   * before the start of the output, pushes the cursor past the end
   * (Overran); otherwise the bytes are appended and the input moves past
   * the token. Truncated stands for a token that reaches past the input.
   */
  function TokenStep(s: seq<byte>, olen: nat, i: nat, w: seq<byte>): (r: TokenResult)
    requires |w| <= olen
    ensures r.Advanced? ==> i + 2 <= r.next <= |s| && |w| < |r.output| <= olen && r.output[..|w|] == w
    ensures r.NoAdvance? <==> ParseToken(s, i) == Some(NoToken)
  {
    match ParseToken(s, i)
    case None => Truncated
    case Some(NoToken) => NoAdvance
    case Some(Lit(src, len, size)) =>
      if |w| + len > olen then Overran
      else if src + len > |s| then Truncated
      else Advanced(i + size, w + s[src..src + len])
    case Some(Match(dist, len, size)) =>
      if |w| + len > olen then Overran
      else if |w| < dist then Overran
      else Advanced(i + size, MatchBytes(w, dist, len))
  }

  /** The end token 0x05 0xFA at input position i. */
  predicate EndTokenAt(s: seq<byte>, i: nat)
  {
    i + 1 < |s| && s[i] == 0x05 && s[i + 1] == 0xFA
  }

  /** The stream is accepted at the end token at i: the whole output was written and its checksum follows the token. */
  predicate AcceptedAt(s: seq<byte>, olen: nat, i: nat, w: seq<byte>)
  {
    EndTokenAt(s, i) && |w| == olen && i + 6 <= |s| && Adler32Spec(1, w) == Be32(s, i + 2)
  }

  /**
   * At a byte that starts no token: None unless it is the end token; at the
   * end token, the announced size if the output has exactly that size and
   * its Adler-32 matches the word after the token, 0 otherwise.
   */
  function EndCheck(s: seq<byte>, olen: uint32, i: nat, w: seq<byte>): (r: Option<uint32>)
    ensures r.Some? <==> EndTokenAt(s, i)
    ensures r.Some? && r.value != 0 ==> r.value == olen && AcceptedAt(s, olen, i, w)
    ensures AcceptedAt(s, olen, i, w) ==> r == Some(olen)
  {
    if !EndTokenAt(s, i) then None
    else if |w| != olen then Some(0)
    else if i + 6 > |s| then Some(0)
    else if Adler32Spec(1, w) != Be32(s, i + 2) then Some(0)
    else Some(olen)
  }

  /** One pass of the decompression loop: go on from a new position, or stop with a result. */
  datatype Outcome = Next(i: nat, w: seq<byte>) | Stop(result: uint32)

  /**
   * One pass of the decompression loop with a byte that starts no token
   * and is not the end token rejected, so that every pass either stops or
   * moves forward in the input.
   */
  function Iteration(s: seq<byte>, olen: uint32, i: nat, w: seq<byte>): (r: Outcome)
    requires |w| <= olen
    ensures r.Next? ==> i + 2 <= r.i <= |s| && |w| < |r.w| <= olen && r.w[..|w|] == w
    ensures r.Stop? && r.result != 0 ==> r.result == olen && AcceptedAt(s, olen, i, w)
  {
    match TokenStep(s, olen, i, w)
    case Advanced(next, output) => Next(next, output)
    case Overran => Stop(0)
    case Truncated => Stop(0)
    case NoAdvance =>
      match EndCheck(s, olen, i, w)
      case Some(result) => Stop(result)
      case None => Stop(0)
  }

  /**
   * One pass of the decompression loop as pl__decompress writes it: after a
   * byte that starts no token and is not the end token, neither the input
   * position nor the output moves and the loop goes round again.
   */
  function IterationAsWritten(s: seq<byte>, olen: uint32, i: nat, w: seq<byte>): (r: Outcome)
    requires |w| <= olen
    ensures r.Next? ==> |r.w| <= olen
    ensures r != Iteration(s, olen, i, w) ==> r == Next(i, w)
  {
    match TokenStep(s, olen, i, w)
    case Advanced(next, output) => Next(next, output)
    case Overran => Stop(0)
    case Truncated => Stop(0)
    case NoAdvance =>
      match EndCheck(s, olen, i, w)
      case Some(result) => Stop(result)
      case None => Next(i, w)
  }

  /** k passes of the loop as written, or the result it stopped with. */
  function PassesAsWritten(s: seq<byte>, olen: uint32, i: nat, w: seq<byte>, k: nat): (r: Outcome)
    requires |w| <= olen
    ensures r.Next? ==> |r.w| <= olen
    decreases k
  {
    if k == 0 then Next(i, w)
    else
      match IterationAsWritten(s, olen, i, w)
      case Stop(result) => Stop(result)
      case Next(i', w') => PassesAsWritten(s, olen, i', w', k - 1)
  }

  /**
   * In the loop as written, a byte in 0x00-0x03, or 0x05 not followed by
   * 0xFA, is a fixed point: no number of passes ever stops the loop.
   */
  lemma {:induction false} StuckTokenNeverStops(s: seq<byte>, olen: uint32, i: nat, w: seq<byte>, k: nat)
    requires |w| <= olen && i + 1 < |s|
    requires s[i] in {0x00, 0x01, 0x02, 0x03, 0x05} && !EndTokenAt(s, i)
    ensures PassesAsWritten(s, olen, i, w, k) == Next(i, w)
    decreases k
  {
    if k > 0 {
      assert ParseToken(s, i) == Some(NoToken);
      assert IterationAsWritten(s, olen, i, w) == Next(i, w);
      StuckTokenNeverStops(s, olen, i, w, k - 1);
    }
  }

  /** With the rejection restored, the same byte ends decompression with 0. */
  lemma StuckTokenRejected(s: seq<byte>, olen: uint32, i: nat, w: seq<byte>)
    requires |w| <= olen && i + 1 < |s|
    requires s[i] in {0x00, 0x01, 0x02, 0x03, 0x05} && !EndTokenAt(s, i)
    ensures Iteration(s, olen, i, w) == Stop(0)
  {
    assert ParseToken(s, i) == Some(NoToken);
  }

  /** The result of decompression, and the output written when it succeeds. */
  datatype Inflated = Inflated(size: uint32, output: seq<byte>)

  /**
   * The decompression loop from input position i with output w, with a
   * byte that starts no token rejected (Iteration, not IterationAsWritten):
   * so corrected, it always ends, with 0 or with the announced size, and it
   * succeeds only at an end token whose checksum matches the complete output.
   */
  function Run(s: seq<byte>, olen: uint32, i: nat, w: seq<byte>): (r: Inflated)
    requires |w| <= olen
    ensures r.size != 0 ==> r.size == olen && |r.output| == olen && r.output[..|w|] == w
    ensures r.size != 0 ==> exists p :: i <= p && AcceptedAt(s, olen, p, r.output)
    decreases |s| - i
  {
    match Iteration(s, olen, i, w)
    case Stop(result) => Inflated(result, w)
    case Next(i', w') =>
      var r := Run(s, olen, i', w');
      assert r.size != 0 ==> r.output[..|w|] == r.output[..|w'|][..|w|];
      r
  }

  /** The first sixteen bytes carry the magic word, a zero word and the size. */
  predicate HeaderOk(s: seq<byte>)
  {
    |s| >= 16 && Be32(s, 0) == StreamMagic && Be32(s, 4) == 0
  }

  /**
   * pl__decompress on a NULL or present stream: 0 unless the header is
   * right, otherwise the loop run from byte 16 with empty output.
   */
  function DecompressSpec(input: Option<seq<byte>>): (r: Inflated)
    ensures r.size != 0 ==> input.Some? && HeaderOk(input.value)
    ensures r.size != 0 ==> r.size == Be32(input.value, 8) && |r.output| == r.size
    ensures r.size != 0 ==> exists p :: 16 <= p && AcceptedAt(input.value, r.size, p, r.output)
  {
    match input
    case None => Inflated(0, [])
    case Some(s) => if !HeaderOk(s) then Inflated(0, []) else Run(s, Be32(s, 8), 16, [])
  }

  /** A literal token of n bytes at i, on empty output, appends those bytes. */
  lemma LiteralPass(s: seq<byte>, olen: uint32, i: nat, data: seq<byte>)
    requires 1 <= |data| <= 32 && |data| <= olen
    requires i + 1 + |data| <= |s| && s[i] as int == 0x20 + |data| - 1 && s[i + 1..i + 1 + |data|] == data
    ensures Iteration(s, olen, i, []) == Next(i + 1 + |data|, data)
  {
    assert ParseToken(s, i) == Some(Lit(i + 1, |data|, 1 + |data|));
    assert [] + data == data;
  }

  /** The end token followed by the checksum of the complete output stops the loop with the size. */
  lemma EndPass(s: seq<byte>, i: nat, data: seq<byte>)
    requires |data| < TwoTo32
    requires i + 6 <= |s| && s[i] == 0x05 && s[i + 1] == 0xFA && s[i + 2..i + 6] == Be32Bytes(Adler32Spec(1, data))
    ensures Iteration(s, |data|, i, data) == Stop(|data|)
  {
    assert ParseToken(s, i) == Some(NoToken);
    Be32RoundTrip(Adler32Spec(1, data), s, i + 2);
  }

  /** A stream with a good header whose loop takes one step and then stops with the size. */
  lemma TwoPassStream(s: seq<byte>, i: nat, data: seq<byte>)
    requires HeaderOk(s) && Be32(s, 8) == |data| && 16 < i
    requires Iteration(s, |data|, 16, []) == Next(i, data)
    requires Iteration(s, |data|, i, data) == Stop(|data|)
    ensures DecompressSpec(Some(s)) == Inflated(|data|, data)
  {
    assert Run(s, |data|, i, data) == Inflated(|data|, data);
  }

  /**
   * A stream of one literal run: header, token 0x20 + (n - 1), the n bytes,
   * the end token and the checksum of the bytes decompresses to those bytes.
   */
  lemma LiteralStreamInflates(data: seq<byte>, tail: seq<byte>)
    requires 1 <= |data| <= 32 && |tail| == 4
    ensures var s := StreamHeader(|data|, tail) + [0x20 + |data| - 1] + data + [0x05, 0xFA] + Be32Bytes(Adler32Spec(1, data));
      DecompressSpec(Some(s)) == Inflated(|data|, data)
  {
    var n := |data|;
    var header := StreamHeader(n, tail);
    var sum := Be32Bytes(Adler32Spec(1, data));
    var s := header + [0x20 + n - 1] + data + [0x05, 0xFA] + sum;
    LiteralStreamLayout(header, 0x20 + n - 1, data, sum);
    HeaderLength(n, tail, s[16..]);
    LiteralPass(s, n, 16, data);
    EndPass(s, 17 + n, data);
    TwoPassStream(s, 17 + n, data);
  }

  /** Where the pieces of a one-literal stream sit. */
  lemma LiteralStreamLayout(header: seq<byte>, t: byte, data: seq<byte>, sum: seq<byte>)
    requires |header| == 16 && |sum| == 4
    ensures var s := header + [t] + data + [0x05, 0xFA] + sum;
      && s == header + s[16..] && s[16] == t && s[17..17 + |data|] == data
      && s[17 + |data|] == 0x05 && s[18 + |data|] == 0xFA && s[19 + |data|..23 + |data|] == sum
  {
    var s := header + [t] + data + [0x05, 0xFA] + sum;
    assert s == header + s[16..];
    assert s[17..17 + |data|] == data;
    assert s[19 + |data|..23 + |data|] == sum;
  }

  /**
   * The decoder's global state: the output buffer and its end barrier, and
   * the output cursor that pl__lit and pl__match advance. The cursor can be
   * pushed past the barrier, which is how those two report an error.
   */
  class Decompressor {
    const out: array<byte>
    const olen: nat
    var dOut: nat

    predicate Valid()
      reads this
    {
      olen <= out.Length
    }

    /** The barriers are set for an output buffer of olen bytes, the cursor at its start. */
    constructor(out: array<byte>, olen: nat)
      requires olen <= out.Length
      ensures Valid() && this.out == out && this.olen == olen && dOut == 0
    {
      this.out := out;
      this.olen := olen;
      dOut := 0;
    }

    /**
     * pl__match: copy len bytes from dist bytes back, one at a time; a
     * copy that would pass the end only moves the cursor, and one whose
     * source precedes the output puts the cursor one past the end.
     */
    method Match(dist: nat, len: nat)
      requires Valid() && dOut <= olen && 1 <= dist
      modifies this`dOut, out
      ensures old(dOut) + len > olen ==> dOut == old(dOut) + len && out[..] == old(out[..])
      ensures old(dOut) + len <= olen && old(dOut) < dist ==> dOut == olen + 1 && out[..] == old(out[..])
      ensures old(dOut) + len <= olen && dist <= old(dOut) ==>
        dOut == old(dOut) + len && out[..dOut] == MatchBytes(old(out[..dOut]), dist, len)
    {
      if dOut + len > olen {
        dOut := dOut + len;
      } else if dOut < dist {
        dOut := olen + 1;
      } else {
        CopyBack(dist, len);
      }
    }

    /** The copy loop of pl__match: len bytes, each one the byte dist places before it. */
    method CopyBack(dist: nat, len: nat)
      requires Valid() && 1 <= dist <= dOut && dOut + len <= olen
      modifies this`dOut, out
      ensures dOut == old(dOut) + len && out[..dOut] == MatchBytes(old(out[..dOut]), dist, len)
    {
      ghost var w := out[..dOut];
      ghost var start := dOut;
      var data := dOut - dist;
      var remaining := len;
      while remaining > 0
        invariant |w| == start && start + len <= olen <= out.Length
        invariant 0 <= remaining <= len && dOut + remaining == start + len && data + dist == dOut
        invariant out[..dOut] == MatchBytes(w, dist, len - remaining)
        decreases remaining
      {
        ghost var v := out[..dOut];
        out[dOut] := out[data];
        assert out[..dOut + 1] == v + [v[|v| - dist]];
        dOut, data, remaining := dOut + 1, data + 1, remaining - 1;
      }
    }

    /**
     * pl__lit: copy len input bytes from src; a copy that would pass the
     * end only moves the cursor. (The source's second guard, a source
     * before the input, cannot fire: literal bytes always follow their token.)
     */
    method Lit(s: seq<byte>, src: nat, len: nat)
      requires Valid() && dOut <= olen && (dOut + len > olen || src + len <= |s|)
      modifies this`dOut, out
      ensures old(dOut) + len > olen ==> dOut == old(dOut) + len && out[..] == old(out[..])
      ensures old(dOut) + len <= olen ==> dOut == old(dOut) + len && out[..dOut] == old(out[..dOut]) + s[src..src + len]
    {
      if dOut + len > olen {
        dOut := dOut + len;
      } else {
        forall k | 0 <= k < len {
          out[dOut + k] := s[src + k];
        }
        dOut := dOut + len;
      }
    }

    /**
     * pl__decompress_token: decode the token at i and apply it, returning
     * the position after it (i itself for a byte that starts no token), or
     * None where the token reaches past the input.
     */
    method DecompressToken(s: seq<byte>, i: nat) returns (next: Option<nat>)
      requires Valid() && dOut <= olen
      modifies this`dOut, out
      ensures var t := TokenStep(s, olen, i, old(out[..dOut]));
        && (t.Truncated? ==> next.None?)
        && (t.Advanced? ==> next == Some(t.next) && dOut == |t.output| && out[..dOut] == t.output)
        && (t.Overran? ==> next.Some? && next.value > i && dOut > olen)
        && (t.NoAdvance? ==> next == Some(i) && dOut == old(dOut) && out[..] == old(out[..]))
    {
      var token := ParseToken(s, i);
      match token {
        case None =>
          next := None;
        case Some(NoToken) =>
          next := Some(i);
        case Some(Lit(src, len, size)) =>
          if dOut + len <= olen && src + len > |s| {
            next := None;
          } else {
            Lit(s, src, len);
            next := Some(i + size);
          }
        case Some(Match(dist, len, size)) =>
          Match(dist, len);
          next := Some(i + size);
      }
    }

    /**
     * One pass of the loop in pl__decompress: apply the token at i, then
     * stop on a truncated token, on a byte that starts no token (checking
     * the end token and the checksum there) or on an overrun cursor, and
     * otherwise go on from the position after the token.
     */
    method Pass(s: seq<byte>, i: nat) returns (stop: bool, result: uint32, next: nat)
      requires Valid() && dOut <= olen < TwoTo32
      modifies this`dOut, out
      ensures var it := Iteration(s, olen, i, old(out[..dOut]));
        && stop == it.Stop?
        && (it.Stop? ==> result == it.result && (result != 0 ==> out[..olen] == old(out[..dOut])))
        && (it.Next? ==> next == it.i && dOut == |it.w| && out[..dOut] == it.w)
    {
      var n := DecompressToken(s, i);
      if n.None? {
        return true, 0, 0;
      }
      if n.value != i {
        if dOut > olen {
          return true, 0, 0;
        }
        return false, 0, n.value;
      }
      if !(i + 1 < |s| && s[i] == 0x05 && s[i + 1] == 0xFA) || dOut != olen || i + 6 > |s| {
        return true, 0, 0;
      }
      var check := Adler32(1, out[..olen]);
      if check != Be32(s, i + 2) {
        return true, 0, 0;
      }
      return true, olen, 0;
    }
  }

  /**
   * pl__decompress: check the header, then apply tokens until the end token
   * or an error. The result is the announced size, with the decompressed
   * bytes at the start of `out`, or 0. A byte that starts no token is
   * rejected with 0 here, where the source's loop would spin on it forever
   * (see IterationAsWritten). The output buffer is the caller's,
   * sized by pl__decompress_length; the source's unused length argument is
   * not modelled.
   */
  method Decompress(out: array<byte>, input: Option<seq<byte>>) returns (r: uint32)
    requires input.Some? && |input.value| >= 12 ==> Be32(input.value, 8) <= out.Length
    modifies out
    ensures r == DecompressSpec(input).size
    ensures r != 0 ==> out[..r] == DecompressSpec(input).output
  {
    if input.None? {
      return 0;
    }
    var s := input.value;
    if |s| < 16 || Be32(s, 0) != StreamMagic || Be32(s, 4) != 0 {
      return 0;
    }
    var olen := Be32(s, 8);
    var d := new Decompressor(out, olen);
    var i := 16;
    while true
      invariant d.Valid() && d.out == out && d.olen == olen && d.dOut <= olen && i <= |s|
      invariant Run(s, olen, i, out[..d.dOut]) == DecompressSpec(input)
      decreases |s| - i
    {
      var stop, result, next := d.Pass(s, i);
      if stop {
        return result;
      }
      i := next;
    }
  }
}
