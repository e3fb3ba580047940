/**
  The 8-byte report of the USB CO2 meter: the fixed reversal of the firmware's
  obfuscation (shuffle, XOR with the key, 3-bit rotate-merge, subtraction of a
  nibble-swapped state), the terminator and checksum test, and the extraction
  of the sensor kind and the 16-bit raw value.

  Bytes are `bv8`; every `& 0xff` in `CO2Meter._decrypt` is the truncation
  that `bv8` operations perform anyway.
 */
module Frame {

  /** The terminator that byte 4 of every plaintext report carries. */
  const Terminator: bv8 := 0x0D

  /** The 8-byte key; also the payload of the feature report sent at start-up. */
  const Key: seq<bv8> := [0xc4, 0xc6, 0xc0, 0x92, 0x40, 0x23, 0xdc, 0x96]

  /** The constant cipher state whose nibble-swapped bytes are subtracted last. */
  const CState: seq<bv8> := [0x48, 0x74, 0x65, 0x6D, 0x70, 0x39, 0x39, 0x65]

  /** Input byte i is moved to position Shuffle[i]. */
  const Shuffle: seq<int> := [2, 4, 0, 7, 1, 6, 5, 3]

  /** The 9-byte feature report: a zero report number followed by the key. */
  const FeatureReport: seq<bv8> := [0] + Key

  /** The shuffle table is a permutation of 0..7, and it is its own inverse. */
  lemma ShuffleIsPermutation()
    ensures |Shuffle| == 8
    ensures forall i :: 0 <= i < 8 ==> 0 <= Shuffle[i] < 8 && Shuffle[Shuffle[i]] == i
    ensures forall i, j :: 0 <= i < j < 8 ==> Shuffle[i] != Shuffle[j]
  {
  }

  // ---------------------------------------------------------------------
  // The four phases of the reversal, one function each
  // ---------------------------------------------------------------------

  /** Phase 1: the byte at input position i ends up at position Shuffle[i].
      Because the table is an involution, output j is input Shuffle[j]. */
  function Shuffled(d: seq<bv8>): (r: seq<bv8>)
    requires |d| >= 8
    ensures |r| == 8
  {
    seq(8, j requires 0 <= j < 8 => d[Shuffle[j]])
  }

  /** Phase 2: XOR with the key. */
  function Masked(d: seq<bv8>): (r: seq<bv8>)
    requires |d| == 8
    ensures |r| == 8
  {
    seq(8, i requires 0 <= i < 8 => d[i] ^ Key[i])
  }

  /** Phase 3: each byte is its own top five bits, shifted down by three,
      under the low three bits of its left neighbour (cyclically). */
  function Unrotated(d: seq<bv8>): (r: seq<bv8>)
    requires |d| == 8
    ensures |r| == 8
  {
    seq(8, i requires 0 <= i < 8 => Merge(d[i], d[Prev(i)]))
  }

  /** The cyclic left neighbour of position i, written as `CO2Meter._decrypt` does. */
  function Prev(i: int): (r: int)
    requires 0 <= i < 8
    ensures r == if i == 0 then 7 else i - 1
  {
    (i - 1 + 8) % 8
  }

  /** The cyclic right neighbour of position i. */
  function Next(i: int): (r: int)
    requires 0 <= i < 8
    ensures r == if i == 7 then 0 else i + 1
  {
    (i + 1) % 8
  }

  /** One output byte of phase 3: the top five bits of `x` moved down, under
      the low three bits of `prev`. */
  function Merge(x: bv8, prev: bv8): bv8
  {
    (x >> 3) | (prev << 5)
  }

  /** Swapping the high and low nibble of a byte. */
  function NibbleSwap(c: bv8): bv8
  {
    (c >> 4) | (c << 4)
  }

  /** Phase 4: subtract the nibble-swapped cipher state, modulo 256. */
  function Unkeyed(d: seq<bv8>): (r: seq<bv8>)
    requires |d| == 8
    ensures |r| == 8
  {
    seq(8, i requires 0 <= i < 8 => Sub(d[i], NibbleSwap(CState[i])))
  }

  /** `(0x100 + x - c) & 0xff`: subtraction modulo 256. */
  function Sub(x: bv8, c: bv8): bv8
  {
    x - c
  }

  /** Addition modulo 256, the inverse of Sub. */
  function Add(x: bv8, c: bv8): bv8
  {
    x + c
  }

  /** What the reversal makes of the first eight bytes of a report. */
  function Decrypted(d: seq<bv8>): (r: seq<bv8>)
    requires |d| >= 8
    ensures |r| == 8
  {
    Unkeyed(Unrotated(Masked(Shuffled(d))))
  }

  /** Phase 1 as `CO2Meter._decrypt` performs it: each input byte i is written to
      position Shuffle[i] of a zeroed buffer. */
  method Unshuffle(data: seq<bv8>) returns (phase1: seq<bv8>)
    requires |data| >= 8
    ensures phase1 == Shuffled(data)
    ensures forall i :: 0 <= i < 8 ==> phase1[Shuffle[i]] == data[i]
  {
    ShuffleIsPermutation();
    var buf := new bv8[8](_ => 0);
    for i := 0 to 8
      invariant forall k :: 0 <= k < i ==> buf[Shuffle[k]] == data[k]
    {
      buf[Shuffle[i]] := data[i];
    }
    forall j | 0 <= j < 8 ensures buf[j] == Shuffled(data)[j] {
      assert buf[Shuffle[Shuffle[j]]] == data[Shuffle[j]];
    }
    phase1 := buf[..];
  }

  /** Phase 2 as `CO2Meter._decrypt` performs it. */
  method Unmask(phase1: seq<bv8>) returns (phase2: seq<bv8>)
    requires |phase1| == 8
    ensures phase2 == Masked(phase1)
  {
    var buf := new bv8[8](_ => 0);
    for i := 0 to 8
      invariant forall k :: 0 <= k < i ==> buf[k] == phase1[k] ^ Key[k]
    {
      buf[i] := phase1[i] ^ Key[i];
    }
    phase2 := buf[..];
  }

  /** Phase 3 as `CO2Meter._decrypt` performs it. */
  method Unrotate(phase2: seq<bv8>) returns (phase3: seq<bv8>)
    requires |phase2| == 8
    ensures phase3 == Unrotated(phase2)
  {
    var buf := new bv8[8](_ => 0);
    for i := 0 to 8
      invariant forall k :: 0 <= k < i ==> buf[k] == Merge(phase2[k], phase2[Prev(k)])
    {
      buf[i] := (phase2[i] >> 3) | (phase2[(i - 1 + 8) % 8] << 5);
    }
    phase3 := buf[..];
  }

  /** Phase 4 as `CO2Meter._decrypt` performs it: the nibble-swapped state is
      computed into its own buffer first, then subtracted. */
  method Unkey(phase3: seq<bv8>) returns (out: seq<bv8>)
    requires |phase3| == 8
    ensures out == Unkeyed(phase3)
  {
    var ctmp := new bv8[8](_ => 0);
    for i := 0 to 8
      invariant forall k :: 0 <= k < i ==> ctmp[k] == NibbleSwap(CState[k])
    {
      ctmp[i] := (CState[i] >> 4) | (CState[i] << 4);
    }
    var buf := new bv8[8](_ => 0);
    for i := 0 to 8
      modifies buf
      invariant forall k :: 0 <= k < i ==> buf[k] == Sub(phase3[k], ctmp[k])
    {
      buf[i] := phase3[i] - ctmp[i];
    }
    out := buf[..];
  }

  /**
    The reversal as `CO2Meter._decrypt` performs it, phase after phase. The result
    is exactly eight bytes.
   */
  method Decrypt(data: seq<bv8>) returns (out: seq<bv8>)
    requires |data| >= 8
    ensures |out| == 8
    ensures out == Decrypted(data)
  {
    var phase1 := Unshuffle(data);
    var phase2 := Unmask(phase1);
    var phase3 := Unrotate(phase2);
    out := Unkey(phase3);
  }

  // ---------------------------------------------------------------------
  // The forward obfuscation, phase by phase the inverse of the reversal
  // ---------------------------------------------------------------------

  /** Inverse of phase 4: add the nibble-swapped cipher state. */
  function Keyed(d: seq<bv8>): (r: seq<bv8>)
    requires |d| == 8
    ensures |r| == 8
  {
    seq(8, i requires 0 <= i < 8 => Add(d[i], NibbleSwap(CState[i])))
  }

  /** Inverse of phase 3: rotate the 64-bit report left by three bits. */
  function Rotated(d: seq<bv8>): (r: seq<bv8>)
    requires |d| == 8
    ensures |r| == 8
  {
    seq(8, i requires 0 <= i < 8 => Unmerge(d[i], d[Next(i)]))
  }

  /** One output byte of the inverse of phase 3. */
  function Unmerge(x: bv8, next: bv8): bv8
  {
    (x << 3) | (next >> 5)
  }

  /** The obfuscation that the reversal undoes. */
  function Obfuscated(p: seq<bv8>): (r: seq<bv8>)
    requires |p| == 8
    ensures |r| == 8
  {
    Shuffled(Masked(Rotated(Keyed(p))))
  }

  lemma ShuffledTwice(d: seq<bv8>)
    requires |d| == 8
    ensures Shuffled(Shuffled(d)) == d
  {
    ShuffleIsPermutation();
    assert forall j :: 0 <= j < 8 ==> Shuffled(Shuffled(d))[j] == d[Shuffle[Shuffle[j]]];
  }

  lemma MaskedTwice(d: seq<bv8>)
    requires |d| == 8
    ensures Masked(Masked(d)) == d
  {
    forall i | 0 <= i < 8 ensures Masked(Masked(d))[i] == d[i] {
      var x, k := d[i], Key[i];
      assert (x ^ k) ^ k == x;
    }
  }

  lemma MergeUnmerge(prev: bv8, x: bv8, next: bv8)
    ensures Merge(Unmerge(x, next), Unmerge(prev, x)) == x
    ensures Unmerge(Merge(x, prev), Merge(next, x)) == x
  {
  }

  lemma UnrotatedRotated(d: seq<bv8>)
    requires |d| == 8
    ensures Unrotated(Rotated(d)) == d
  {
    forall i | 0 <= i < 8 ensures Unrotated(Rotated(d))[i] == d[i] {
      MergeUnmerge(d[Prev(i)], d[i], d[Next(i)]);
    }
  }

  lemma RotatedUnrotated(d: seq<bv8>)
    requires |d| == 8
    ensures Rotated(Unrotated(d)) == d
  {
    forall i | 0 <= i < 8 ensures Rotated(Unrotated(d))[i] == d[i] {
      MergeUnmerge(d[Prev(i)], d[i], d[Next(i)]);
    }
  }

  lemma AddSub(x: bv8, c: bv8)
    ensures Sub(Add(x, c), c) == x && Add(Sub(x, c), c) == x
  {
  }

  lemma UnkeyedKeyed(d: seq<bv8>)
    requires |d| == 8
    ensures Unkeyed(Keyed(d)) == d && Keyed(Unkeyed(d)) == d
  {
    forall i | 0 <= i < 8 ensures Unkeyed(Keyed(d))[i] == d[i] && Keyed(Unkeyed(d))[i] == d[i] {
      AddSub(d[i], NibbleSwap(CState[i]));
    }
  }

  /** The reversal undoes the obfuscation of every 8-byte frame. */
  lemma DecryptedObfuscated(p: seq<bv8>)
    requires |p| == 8
    ensures Decrypted(Obfuscated(p)) == p
  {
    var k := Keyed(p);
    var r := Rotated(k);
    var m := Masked(r);
    ShuffledTwice(m);
    MaskedTwice(r);
    UnrotatedRotated(k);
    UnkeyedKeyed(p);
  }

  /** ... and the obfuscation undoes the reversal: on 8-byte frames the
      reversal is a bijection, so no two reports decrypt to the same frame. */
  lemma ObfuscatedDecrypted(c: seq<bv8>)
    requires |c| == 8
    ensures Obfuscated(Decrypted(c)) == c
  {
    var s := Shuffled(c);
    var m := Masked(s);
    var u := Unrotated(m);
    assert c[..8] == c;
    UnkeyedKeyed(u);
    RotatedUnrotated(m);
    MaskedTwice(s);
    ShuffledTwice(c);
  }

  /** Exchanging two positions of a sequence. */
  function Swap(s: seq<bv8>, i: int, j: int): (r: seq<bv8>)
    requires 0 <= i < |s| && 0 <= j < |s|
  {
    s[i := s[j]][j := s[i]]
  }

  lemma SwapKeepsBytes(s: seq<bv8>, i: int, j: int)
    requires 0 <= i < |s| && 0 <= j < |s|
    ensures multiset(Swap(s, i, j)) == multiset(s)
  {
  }

  /** The shuffle is the product of the exchanges (0 2), (1 4), (3 7), (5 6). */
  lemma ShuffledIsSwaps(d: seq<bv8>)
    requires |d| == 8
    ensures Shuffled(d) == Swap(Swap(Swap(Swap(d, 0, 2), 1, 4), 3, 7), 5, 6)
  {
    var s1 := Swap(d, 0, 2);
    assert s1 == [d[2], d[1], d[0], d[3], d[4], d[5], d[6], d[7]];
    var s2 := Swap(s1, 1, 4);
    assert s2 == [d[2], d[4], d[0], d[3], d[1], d[5], d[6], d[7]];
    var s3 := Swap(s2, 3, 7);
    assert s3 == [d[2], d[4], d[0], d[7], d[1], d[5], d[6], d[3]];
    var s4 := Swap(s3, 5, 6);
    assert s4 == [d[2], d[4], d[0], d[7], d[1], d[6], d[5], d[3]];
  }

  /** Every input byte lands at exactly one position of phase 1. */
  lemma ShuffledPermutes(d: seq<bv8>)
    requires |d| == 8
    ensures multiset(Shuffled(d)) == multiset(d)
  {
    ShuffledIsSwaps(d);
    var s1 := Swap(d, 0, 2);
    var s2 := Swap(s1, 1, 4);
    var s3 := Swap(s2, 3, 7);
    SwapKeepsBytes(d, 0, 2);
    SwapKeepsBytes(s1, 1, 4);
    SwapKeepsBytes(s2, 3, 7);
    SwapKeepsBytes(s3, 5, 6);
  }

  // ---------------------------------------------------------------------
  // Validation and extraction
  // ---------------------------------------------------------------------

  /** The raw reading `b1 << 8 | b2` is the big-endian 16-bit number. */
  function RawValue(hi: bv8, lo: bv8): (r: int)
    ensures 0 <= r < 0x1_0000
    ensures r == hi as int * 256 + lo as int
  {
    ((hi as bv16 << 8) | lo as bv16) as int
  }

  /** A candidate frame is intact when byte 4 is the terminator and the low
      byte of the sum of bytes 0..2 equals byte 3. */
  predicate Intact(f: seq<bv8>)
    requires |f| >= 5
  {
    f[4] == Terminator && (f[0] as int + f[1] as int + f[2] as int) % 256 == f[3] as int
  }

  /** What one read yields: a sensor kind and raw value, a frame discarded by
      the checksum test, or a fault (the index error of a short read). */
  datatype Outcome = Accepted(kind: int, raw: int) | Rejected | Fault

  /** Checks a candidate frame and extracts its fields. */
  function Check(f: seq<bv8>): (r: Outcome)
    requires |f| >= 5
    ensures r.Accepted? <==> Intact(f)
    ensures r.Accepted? ==> r.kind == f[0] as int && r.raw == f[1] as int * 256 + f[2] as int
    ensures r != Fault
  {
    if Intact(f) then Accepted(f[0] as int, RawValue(f[1], f[2])) else Rejected
  }

  /**
    Decoding of the bytes one read returned. A report whose byte 4 is already
    the terminator is checked as it is; any other goes through the reversal
    first. Fewer than five bytes, or fewer than eight that need the reversal,
    is a fault.
   */
  function Decode(data: seq<bv8>): (r: Outcome)
    ensures r.Fault? <==> |data| < 5 || (data[4] != Terminator && |data| < 8)
    ensures r.Accepted? ==> 0 <= r.kind < 256 && 0 <= r.raw < 0x1_0000
    ensures |data| >= 5 && data[4] == Terminator ==>
              (r.Accepted? <==> Intact(data)) &&
              (r.Accepted? ==> r.kind == data[0] as int && r.raw == data[1] as int * 256 + data[2] as int)
    ensures |data| >= 8 && data[4] != Terminator ==>
              (r.Accepted? <==> Intact(Decrypted(data))) &&
              (r.Accepted? ==> r.kind == Decrypted(data)[0] as int &&
                               r.raw == Decrypted(data)[1] as int * 256 + Decrypted(data)[2] as int)
  {
    if |data| < 5 then Fault
    else if data[4] == Terminator then Check(data)
    else if |data| < 8 then Fault
    else Check(Decrypted(data))
  }

  /**
    Round trip: an intact frame, obfuscated, decodes to its own kind and raw
    value, provided the obfuscated byte 4 is not the terminator (otherwise
    the report is taken for plaintext; see ObfuscatedTerminatorMisroutes).
   */
  lemma DecodeObfuscated(p: seq<bv8>)
    requires |p| == 8 && Intact(p)
    requires Obfuscated(p)[4] != Terminator
    ensures Decode(Obfuscated(p)) == Accepted(p[0] as int, p[1] as int * 256 + p[2] as int)
  {
    DecryptedObfuscated(p);
  }

  /** The byte-4 heuristic is not a decision procedure: this intact frame,
      once obfuscated, has the terminator at byte 4, is checked as plaintext
      and is rejected. */
  lemma ObfuscatedTerminatorMisroutes()
    ensures var p: seq<bv8> := [0x50, 0xD2, 0x0A, 0x2C, 0x0D, 0x00, 0x00, 0x00];
            Intact(p) && Obfuscated(p) == [0xC0, 0xE4, 0x64, 0x20, 0x0D, 0x46, 0xBF, 0x82] &&
            Decode(Obfuscated(p)) == Rejected
  {
    var p: seq<bv8> := [0x50, 0xD2, 0x0A, 0x2C, 0x0D, 0x00, 0x00, 0x00];
    var k := Keyed(p);
    assert k == [0xD4, 0x19, 0x60, 0x02, 0x14, 0x93, 0x93, 0x56];
    var r := Rotated(k);
    assert r == [0xA0, 0xCB, 0x00, 0x10, 0xA4, 0x9C, 0x9A, 0xB6];
    var m := Masked(r);
    assert m == [0x64, 0x0D, 0xC0, 0x82, 0xE4, 0xBF, 0x46, 0x20];
    assert Shuffled(m) == [0xC0, 0xE4, 0x64, 0x20, 0x0D, 0x46, 0xBF, 0x82];
  }

  /** The reference report: CO2 at 400 ppm, sent in plaintext. */
  lemma DecodeKnownVector()
    ensures Decode([0x50, 0x01, 0x90, 0xE1, 0x0D, 0x00, 0x00, 0x00]) == Accepted(0x50, 400)
  {
  }
}
