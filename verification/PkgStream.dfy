/**
 The package keystreams and the seekable decryption. Any range decrypts to that slice of
 the whole data decrypted at once; counter-mode blocks never repeat.
 */
module PkgStream {
  import opened Common
  import opened AesField
  import opened AesSbox
  import opened Aes
  import opened AesCipher
  import opened Bytes

  type Data = seq<bv8>

  const TWO64: nat := 0x1_0000_0000_0000_0000
  const TWO128: nat := 0x1_0000_0000_0000_0000_0000_0000_0000_0000

  /** Counter mode from a first counter, or the hash keystream of a debug package. SHA-1 is
      a parameter. */
  datatype Cipher =
    | Counter(sbox: Data, schedule: seq<Data>, base: nat)
    | DebugHash(sha1: Data -> Data, qa: Data)

  ghost predicate Usable(c: Cipher) {
    match c
    case Counter(sbox, w, base) => IsSbox(sbox) && IsSchedule(w)
    case DebugHash(sha1, qa) => |qa| == 16 && forall x :: |sha1(x)| >= 16
  }

  function Narrow(s: seq<Byte>): (r: Data)
    ensures |r| == |s|
  {
    seq(|s|, i requires 0 <= i < |s| => s[i] as bv8)
  }

  /** A counter as sixteen bytes, wrapping at 2^128. */
  function CounterBlock(n: nat): Block {
    Narrow(ToBE(n % TWO128, 16))
  }

  /** The block that is hashed: the digest's halves twice each, zeros, and the index. */
  function DebugBlock(qa: Data, i: nat): Data
    requires |qa| == 16
  {
    qa[..8] + qa[..8] + qa[8..] + qa[8..] + Narrow(Zeros(24)) + Narrow(ToBE(i % TWO64, 8))
  }

  /** Byte j of a number written big-endian in this many bytes. */
  function BigEndianByte(n: nat, width: nat, j: nat): Byte
    requires j < width
  {
    n / Pow256(width - 1 - j) % 256
  }

  /** A counter's block is the counter, most significant byte first. */
  lemma CounterBytes(n: nat, j: nat)
    requires j < 16
    ensures CounterBlock(n)[j] == BigEndianByte(n % TWO128, 16, j) as bv8
  {
    hide ToBE;
    ByteOfBE(n % TWO128, 16, j);
  }

  /** The block to hash, byte by byte: each half of the digest twice, twenty-four zeros, and
      the index. */
  ghost predicate IsDebugBlock(k: Data, qa: Data, i: nat)
    requires |qa| == 16
  {
    && |k| == 64
    && (forall j {:trigger k[j]} :: 0 <= j < 16 ==> k[j] == qa[j % 8])
    && (forall j {:trigger k[j]} :: 16 <= j < 32 ==> k[j] == qa[8 + j % 8])
    && (forall j {:trigger k[j]} :: 32 <= j < 56 ==> k[j] == 0)
    && forall j {:trigger k[j]} :: 56 <= j < 64 ==> k[j] == BigEndianByte(i % TWO64, 8, j - 56) as bv8
  }

  lemma DebugBlockBytes(qa: Data, i: nat)
    requires |qa| == 16
    ensures IsDebugBlock(DebugBlock(qa, i), qa, i)
  {
    hide ToBE, Narrow, BigEndianByte;
    var k := DebugBlock(qa, i);
    NarrowZeros(24);
    forall j | 56 <= j < 64 ensures k[j] == BigEndianByte(i % TWO64, 8, j - 56) as bv8 {
      IndexBytes(i % TWO64, j - 56);
    }
  }

  lemma IndexBytes(n: nat, j: nat)
    requires j < 8
    ensures Narrow(ToBE(n, 8))[j] == BigEndianByte(n, 8, j) as bv8
  {
    hide ToBE;
    ByteOfBE(n, 8, j);
  }

  function BlockAt(c: Cipher, i: nat): (b: Data)
    requires Usable(c)
    ensures |b| == 16
  {
    match c
    case Counter(sbox, w, base) => Encrypt(sbox, w, CounterBlock(base + i))
    case DebugHash(sha1, qa) => sha1(DebugBlock(qa, i))[..16]
  }

  /** The keystream of n blocks from block i. */
  function Stream(c: Cipher, i: nat, n: nat): (s: Data)
    requires Usable(c)
    ensures |s| == 16 * n
  {
    if n == 0 then [] else Stream(c, i, n - 1) + BlockAt(c, i + n - 1)
  }

  // ----- the keystream generator -------------------------------------------------------------

  function Counters(base: nat, i: nat, n: nat): (s: Data)
    ensures |s| == 16 * n
  {
    if n == 0 then [] else Counters(base, i, n - 1) + CounterBlock(base + i + n - 1)
  }

  lemma {:induction false} CounterSlice(base: nat, i: nat, n: nat, k: nat)
    requires k < n
    ensures Counters(base, i, n)[16 * k..16 * k + 16] == CounterBlock(base + i + k)
  {
    hide CounterBlock;
    if k < n - 1 {
      CounterSlice(base, i, n - 1, k);
      assert Counters(base, i, n)[16 * k..16 * k + 16] == Counters(base, i, n - 1)[16 * k..16 * k + 16];
    }
  }

  /** All counters are joined, then each sixteen bytes of them are encrypted. */
  method CounterKeystream(sbox: array<bv8>, w: seq<Data>, base: nat, start: nat, n: nat) returns (ks: Data)
    requires IsSbox(sbox[..]) && IsSchedule(w)
    ensures ks == Stream(Counter(sbox[..], w, base), start, n)
  {
    hide CounterBlock, Encrypt, IsSchedule, IsSbox;
    SboxSize(sbox[..]);
    var ctrs: Data := [];
    for i := 0 to n
      invariant ctrs == Counters(base, start, i)
    {
      ctrs := ctrs + CounterBlock(base + start + i);
    }
    ks := [];
    for k := 0 to n
      invariant ks == Stream(Counter(sbox[..], w, base), start, k)
    {
      CounterSlice(base, start, n, k);
      var block := EncryptBlock(sbox, w, ctrs[16 * k..16 * k + 16]);
      assert base + (start + k) == base + start + k;
      ks := ks + block;
    }
  }

  lemma NarrowZeros(n: nat)
    ensures forall j :: 0 <= j < n ==> Narrow(Zeros(n))[j] == 0
  {
  }

  /** Fills the sixty-four bytes to hash. */
  method DebugKey(qa: Data, i: nat) returns (k: array<bv8>)
    requires |qa| == 16
    ensures fresh(k) && k[..] == DebugBlock(qa, i) && IsDebugBlock(k[..], qa, i)
  {
    hide ToBE, Narrow, IsDebugBlock;
    DebugBlockBytes(qa, i);
    k := new bv8[64](_ => 0);
    var index := Narrow(ToBE(i % TWO64, 8));
    forall j | 0 <= j < 8 { k[j] := qa[j]; }
    forall j | 0 <= j < 8 { k[8 + j] := qa[j]; }
    forall j | 0 <= j < 8 { k[16 + j] := qa[8 + j]; }
    forall j | 0 <= j < 8 { k[24 + j] := qa[8 + j]; }
    forall j | 0 <= j < 8 { k[56 + j] := index[j]; }
    assert k[..8] == qa[..8] && k[8..16] == qa[..8];
    assert k[16..24] == qa[8..] && k[24..32] == qa[8..];
    NarrowZeros(24);
    assert k[32..56] == Narrow(Zeros(24)) && k[56..] == index;
    assert k[..] == k[..8] + k[8..16] + k[16..24] + k[24..32] + k[32..56] + k[56..];
  }

  method DebugKeystream(sha1: Data -> Data, qa: Data, start: nat, n: nat) returns (out: Data)
    requires |qa| == 16 && forall x :: |sha1(x)| >= 16
    ensures out == Stream(DebugHash(sha1, qa), start, n)
  {
    hide DebugBlock;
    out := [];
    for i := 0 to n
      invariant out == Stream(DebugHash(sha1, qa), start, i)
    {
      var k := DebugKey(qa, start + i);
      out := out + sha1(k[..])[..16];
    }
  }

  // ----- decryption ---------------------------------------------------------------------------

  /** A slice that stops at the end. */
  function Cut(d: Data, from: nat, to: nat): Data {
    if from <= Least(to, |d|) then d[from..Least(to, |d|)] else []
  }

  function XorData(a: Data, b: Data): (r: Data)
    requires |a| == |b|
    ensures |r| == |a|
  {
    seq(|a|, i requires 0 <= i < |a| => Xor(a[i], b[i]))
  }

  /** Only the blocks of the range are read, and keystream for no more than was read. */
  function DecryptRange(c: Cipher, data: Data, start: nat, length: nat): Data
    requires Usable(c)
  {
    var sb := start / 16;
    var off := start - sb * 16;
    var nb := (off + length + 15) / 16;
    var chunk := Cut(data, sb * 16, sb * 16 + nb * 16);
    var ks := Stream(c, sb, Least(nb, |chunk| / 16 + 1));
    var m := Least(|chunk|, |ks|);
    Cut(XorData(chunk[..m], ks[..m]), off, off + length)
  }

  function KeyByteAt(c: Cipher, k: nat): bv8
    requires Usable(c)
  {
    BlockAt(c, k / 16)[k % 16]
  }

  /** The whole data, decrypted with the keystream from block 0. */
  function Whole(c: Cipher, data: Data): (r: Data)
    requires Usable(c)
    ensures |r| == |data|
  {
    seq(|data|, k requires 0 <= k < |data| => Xor(data[k], KeyByteAt(c, k)))
  }

  lemma {:induction false} StreamByte(c: Cipher, i: nat, n: nat, k: nat)
    requires Usable(c) && k < 16 * n
    ensures Stream(c, i, n)[k] == KeyByteAt(c, 16 * i + k)
    decreases n
  {
    hide BlockAt, Usable;
    if k < 16 * (n - 1) {
      StreamByte(c, i, n - 1, k);
    } else {
      assert (16 * i + k) / 16 == i + n - 1;
    }
  }

  /** The chunk is never longer than the keystream made for it. */
  lemma EnoughKeystream(chunk: nat, nb: nat)
    requires chunk <= 16 * nb
    ensures chunk <= 16 * Least(nb, chunk / 16 + 1)
  {
  }

  lemma ChunkDecrypts(c: Cipher, data: Data, sb: nat, n: nat, chunk: Data)
    requires Usable(c) && |chunk| <= 16 * n && (chunk == [] || 16 * sb + |chunk| <= |data|)
    requires forall k :: 0 <= k < |chunk| ==> chunk[k] == data[16 * sb + k]
    ensures forall k :: 0 <= k < |chunk| ==>
      XorData(chunk, Stream(c, sb, n)[..|chunk|])[k] == Whole(c, data)[16 * sb + k]
  {
    hide BlockAt, Usable, Stream, KeyByteAt, Xor;
    forall k | 0 <= k < |chunk|
      ensures XorData(chunk, Stream(c, sb, n)[..|chunk|])[k] == Whole(c, data)[16 * sb + k]
    {
      StreamByte(c, sb, n, k);
    }
  }

  lemma CutBytes(d: Data, from: nat, size: nat)
    ensures var s := Cut(d, from, from + size);
      && |s| == (if from <= |d| then Least(size, |d| - from) else 0)
      && forall k :: 0 <= k < |s| ==> s[k] == d[from + k]
  {
  }

  /** Random access agrees with the whole: every range, of any length and wherever it
      starts, past the end included. */
  lemma RangeIsSlice(c: Cipher, data: Data, start: nat, length: nat)
    requires Usable(c)
    ensures DecryptRange(c, data, start, length) == Cut(Whole(c, data), start, start + length)
  {
    hide BlockAt, Usable, Stream, Whole, XorData, Cut;
    var sb := start / 16;
    var off := start - sb * 16;
    var nb := (off + length + 15) / 16;
    var chunk := Cut(data, sb * 16, sb * 16 + nb * 16);
    CutBytes(data, sb * 16, nb * 16);
    EnoughKeystream(|chunk|, nb);
    var n := Least(nb, |chunk| / 16 + 1);
    ChunkDecrypts(c, data, sb, n, chunk);
    assert chunk[..|chunk|] == chunk;
    SameCut(XorData(chunk, Stream(c, sb, n)[..|chunk|]), Whole(c, data), 16 * sb, nb, off, length);
  }

  /** Cutting a chunk that holds the range is cutting the whole. */
  lemma SameCut(dec: Data, whole: Data, at: nat, nb: nat, off: nat, length: nat)
    requires |dec| == if at <= |whole| then Least(16 * nb, |whole| - at) else 0
    requires forall k :: 0 <= k < |dec| ==> at + k < |whole| && dec[k] == whole[at + k]
    requires off + length <= 16 * nb
    ensures Cut(dec, off, off + length) == Cut(whole, at + off, at + off + length)
  {
  }

  /** Decrypting is its own inverse. */
  lemma DecryptTwice(c: Cipher, data: Data)
    requires Usable(c)
    ensures Whole(c, Whole(c, data)) == data
  {
    hide Usable, KeyByteAt, Xor;
    forall k | 0 <= k < |data| ensures Whole(c, Whole(c, data))[k] == data[k] {
      XorLaws(data[k], KeyByteAt(c, k), KeyByteAt(c, k));
      XorLaws(KeyByteAt(c, k), 0, 0);
      XorLaws(data[k], 0, 0);
    }
  }

  lemma KeystreamOfZeros(c: Cipher, n: nat)
    requires Usable(c)
    ensures Whole(c, seq(16 * n, _ => 0)) == Stream(c, 0, n)
  {
    hide Usable, BlockAt, KeyByteAt, Xor, Stream;
    forall k | 0 <= k < 16 * n ensures Whole(c, seq(16 * n, _ => 0))[k] == Stream(c, 0, n)[k] {
      StreamByte(c, 0, n, k);
      XorLaws(KeyByteAt(c, k), 0, 0);
    }
  }

  /** Zeros decrypt to the keystream, and whatever is added to the data is added to the
      result: decryption adds the keystream. */
  lemma DecryptionAdds(c: Cipher, a: Data, b: Data, n: nat)
    requires Usable(c) && |a| == |b|
    ensures Whole(c, XorData(a, b)) == XorData(Whole(c, a), b)
    ensures Whole(c, seq(16 * n, _ => 0)) == Stream(c, 0, n)
  {
    KeystreamOfZeros(c, n);
    hide Usable, KeyByteAt, Xor, Stream;
    forall k | 0 <= k < |a| ensures Whole(c, XorData(a, b))[k] == XorData(Whole(c, a), b)[k] {
      XorLaws(a[k], b[k], KeyByteAt(c, k));
      XorLaws(a[k], KeyByteAt(c, k), b[k]);
      XorLaws(b[k], KeyByteAt(c, k), 0);
    }
  }

  // ----- no repeated blocks --------------------------------------------------------------------

  lemma Pow16()
    ensures Pow256(16) == TWO128
  {
    assert Pow256(4) == 0x1_0000_0000;
    assert Pow256(8) == TWO64;
    assert Pow256(12) == 0x1_0000_0000 * TWO64;
  }

  lemma ByteBack(a: Byte)
    ensures (a as bv8) as int == a
  {
    var x := NumberIsByte(a);
  }

  lemma SameCounter(m: nat, n: nat)
    requires CounterBlock(m) == CounterBlock(n)
    ensures m % TWO128 == n % TWO128
  {
    var a, b := ToBE(m % TWO128, 16), ToBE(n % TWO128, 16);
    Pow16();
    BEOfToBE(m % TWO128, 16);
    BEOfToBE(n % TWO128, 16);
    hide ToBE, BE, Pow256;
    forall i | 0 <= i < 16 ensures a[i] == b[i] {
      assert Narrow(a)[i] == Narrow(b)[i];
      ByteBack(a[i]);
      ByteBack(b[i]);
    }
    assert a == b;
  }

  lemma SameIndex(x: nat, i: nat, j: nat)
    requires (x + i) % TWO128 == (x + j) % TWO128 && i <= j < i + TWO128
    ensures i == j
  {
    var p, q := (x + i) / TWO128, (x + j) / TWO128;
    assert j - i == (q - p) * TWO128;
  }

  /** Counter-mode keystream blocks within 2^128 of each other all differ. */
  lemma KeystreamNeverRepeats(c: Cipher, i: nat, j: nat)
    requires c.Counter? && Usable(c) && i < j < i + TWO128
    ensures BlockAt(c, i) != BlockAt(c, j)
  {
    hide Encrypt, CounterBlock, IsSbox, IsSchedule;
    if BlockAt(c, i) == BlockAt(c, j) {
      EncryptIsInjective(c.sbox, c.schedule, CounterBlock(c.base + i), CounterBlock(c.base + j));
      SameCounter(c.base + i, c.base + j);
      SameIndex(c.base, i, j);
    }
  }
}
