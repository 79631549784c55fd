/**
 The traffic indication map element (section 7.3.2.6 of IEEE 802.11-2007): the beacon writer, which
 trims the bitmap to the bytes that matter, and the reader, which finds an association ID's bit again.
 */
module Tim {

  type Byte = b: int | 0 <= b < 256

  const EID_TIM: Byte := 5

  function Pow2(k: int): int
    requires 0 <= k < 8
  {
    if k == 0 then 1 else if k == 1 then 2 else if k == 2 then 4 else if k == 3 then 8
    else if k == 4 then 16 else if k == 5 then 32 else if k == 6 then 64 else 128
  }

  /** `b & (1 << k)` is non-zero. */
  predicate BitSet(b: Byte, k: int)
    requires 0 <= k < 8
  {
    (b / Pow2(k)) % 2 == 1
  }

  /** `__bss_tim_get`, false outside the bitmap. */
  predicate AidSet(tim: seq<Byte>, aid: nat) {
    aid / 8 < |tim| && BitSet(tim[aid / 8], aid % 8)
  }

  /** `gMaxTimLen`: whole 32-bit words for association IDs 0 to maxAid. */
  function TimLen(maxAid: nat): nat {
    4 * ((maxAid + 32) / 32)
  }

  predicate AllZero(tim: seq<Byte>) {
    forall i | 0 <= i < |tim| :: tim[i] == 0
  }

  // ---- What the writer must produce ----

  function FirstSet(tim: seq<Byte>, from: nat): (j: nat)
    requires from <= |tim|
    ensures from <= j <= |tim|
    ensures forall i | from <= i < j :: tim[i] == 0
    ensures j < |tim| ==> tim[j] != 0
    decreases |tim| - from
  {
    if from == |tim| || tim[from] != 0 then from else FirstSet(tim, from + 1)
  }

  function LastSet(tim: seq<Byte>): (j: int)
    ensures -1 <= j < |tim|
    ensures forall i | j < i < |tim| :: tim[i] == 0
    ensures j >= 0 ==> tim[j] != 0
  {
    if tim == [] then -1
    else if tim[|tim| - 1] != 0 then |tim| - 1
    else LastSet(tim[..|tim| - 1])
  }

  /** The largest even number of leading zero bytes. */
  function N1(tim: seq<Byte>): nat {
    var j := FirstSet(tim, 0);
    if j == |tim| then 0 else j - j % 2
  }

  /** The element for a bitmap: partial bitmap if some station sleeps and some bit is set. */
  function TimElement(tim: seq<Byte>, psStations: nat, count: Byte, period: Byte, allOnes: bool): (ie: seq<Byte>)
    requires |tim| <= 252
  {
    if psStations > 0 && !AllZero(tim) then
      var n1, n2 := N1(tim), LastSet(tim);
      NonZeroRange(tim);
      [EID_TIM, n2 - n1 + 4, count, period, n1] + tim[n1..n2 + 1]
    else
      [EID_TIM, 4, count, period, 0, if allOnes then 255 else 0]
  }

  /** The header of the element: its identifier, the length of what follows, the count of beacons to the
      next delivery of group frames, and the period of such deliveries. */
  lemma TimHeader(tim: seq<Byte>, psStations: nat, count: Byte, period: Byte, allOnes: bool)
    requires |tim| <= 252
    ensures var ie := TimElement(tim, psStations, count, period, allOnes);
      |ie| >= 6 && ie[0] == 5 && ie[1] == |ie| - 2 && ie[2] == count && ie[3] == period
  {
    if psStations > 0 && !AllZero(tim) {
      NonZeroRange(tim);
    }
  }

  lemma NonZeroRange(tim: seq<Byte>)
    requires !AllZero(tim)
    ensures 0 <= N1(tim) <= FirstSet(tim, 0) <= LastSet(tim) < |tim|
    ensures FirstSet(tim, 0) <= N1(tim) + 1 && N1(tim) % 2 == 0
    ensures forall i | 0 <= i < |tim| && !(N1(tim) <= i <= LastSet(tim)) :: tim[i] == 0
  {
    var i :| 0 <= i < |tim| && tim[i] != 0;
  }

  // ---- Reader ----

  /** Bit `k` of byte `idx` of the full bitmap, as far as the element covers it. */
  predicate CoveredBit(tim: seq<Byte>, timLen: Byte, idx: Byte, k: int)
    requires |tim| >= timLen >= 4 && 0 <= k < 8
  {
    var n1 := tim[2] - tim[2] % 2;
    var n2 := (timLen + n1 - 4) % 256;
    if idx < n1 || idx > n2 then false
    else IndexInside(timLen, n1, idx); BitSet(tim[3 + idx - n1], k)
  }

  /** `ieee80211_check_tim`, on the element without its two header bytes. The index is kept in eight
      bits, as in the driver. */
  predicate CheckTim(tim: seq<Byte>, timLen: Byte, aid: nat)
    requires |tim| >= timLen
  {
    timLen >= 4 &&
    var a := aid % 0x4000;
    CoveredBit(tim, timLen, (a / 8) % 256, a % 8)
  }

  lemma IndexInside(timLen: Byte, n1: int, idx: int)
    requires timLen >= 4 && 0 <= n1 < 256 && n1 <= idx <= (timLen + n1 - 4) % 256
    ensures 3 + idx - n1 < timLen
  {
    var x := timLen + n1 - 4;
    assert x == (x / 256) * 256 + x % 256;
  }

  // ---- Round trip ----

  lemma NonZeroHasBit(b: Byte)
    ensures b != 0 <==> exists k | 0 <= k < 8 :: BitSet(b, k)
  {
    if b != 0 {
      assert BitSet(b, 0) || BitSet(b, 1) || BitSet(b, 2) || BitSet(b, 3) ||
             BitSet(b, 4) || BitSet(b, 5) || BitSet(b, 6) || BitSet(b, 7);
    }
  }

  lemma ShortIndex(aid: nat)
    ensures ((aid % 0x4000) / 8) % 256 == (aid % 2048) / 8 && (aid % 0x4000) % 8 == (aid % 2048) % 8
  {
    var q, r := aid / 0x4000, aid % 0x4000;
    assert aid == q * 0x4000 + r;
    var c, b := r / 2048, r % 2048;
    assert aid == (8 * q + c) * 2048 + b;
    Parts(aid, 8 * q + c, b);
    ByteParts(r, c, b);
  }

  lemma Parts(x: nat, c: nat, b: nat)
    requires x == c * 2048 + b && b < 2048
    ensures x % 2048 == b
  {
    assert x / 2048 == c;
  }

  lemma ByteParts(x: nat, c: nat, b: nat)
    requires x == c * 2048 + b && b < 2048
    ensures (x / 8) % 256 == b / 8 && x % 8 == b % 8
  {
    var d, e := b / 8, b % 8;
    assert x == 8 * (256 * c + d) + e;
    assert x / 8 == 256 * c + d;
    assert (256 * c + d) / 256 == c;
  }

  /** The part of the bitmap that is written determines every bit of it. */
  lemma PartialMap(tim: seq<Byte>, body: seq<Byte>, n1: int, n2: int, idx: Byte, k: int)
    requires 0 <= k < 8 && 0 <= n1 <= n2 < |tim| <= 252 && n1 % 2 == 0
    requires forall i | 0 <= i < |tim| && !(n1 <= i <= n2) :: tim[i] == 0
    requires |body| == n2 - n1 + 4 && body[2] == n1 && body[3..] == tim[n1..n2 + 1]
    ensures CoveredBit(body, n2 - n1 + 4, idx, k) <==> idx < |tim| && BitSet(tim[idx], k)
  {
    hide BitSet;
    ZeroHasNoBit(k);
    assert (n2 - n1 + 4 + n1 - 4) % 256 == n2;
    if n1 <= idx <= n2 {
      assert body[3..][idx - n1] == tim[n1..n2 + 1][idx - n1];
    }
  }

  lemma PartialElement(tim: seq<Byte>, psStations: nat, count: Byte, period: Byte, allOnes: bool)
    requires |tim| <= 252 && psStations > 0 && !AllZero(tim)
    ensures var ie := TimElement(tim, psStations, count, period, allOnes);
            var n1, n2 := N1(tim), LastSet(tim);
      && 0 <= n1 <= n2 < |tim| && n1 % 2 == 0 && (forall i | 0 <= i < |tim| && !(n1 <= i <= n2) :: tim[i] == 0)
      && |ie| == n2 - n1 + 6 && ie[1] == n2 - n1 + 4 && ie[2..][2] == n1 && ie[2..][3..] == tim[n1..n2 + 1]
  {
    hide FirstSet;
    NonZeroRange(tim);
    var n1, n2 := N1(tim), LastSet(tim);
    HeaderAndMap(EID_TIM, n2 - n1 + 4, count, period, n1, tim[n1..n2 + 1]);
  }

  lemma HeaderAndMap(a: Byte, b: Byte, c: Byte, d: Byte, e: Byte, m: seq<Byte>)
    ensures var ie := [a, b, c, d, e] + m;
      |ie| == |m| + 5 && ie[1] == b && ie[2..][2] == e && ie[2..][3..] == m
  {
    var ie := [a, b, c, d, e] + m;
    assert ie[2..][3..] == ie[5..];
  }

  lemma CoveredRoundTrip(tim: seq<Byte>, psStations: nat, count: Byte, period: Byte, i: Byte, k: int)
    requires |tim| <= 252 && 0 <= k < 8
    ensures var ie := TimElement(tim, psStations, count, period, false);
      && 6 <= |ie| && |ie| - 2 == ie[1]
      && (CoveredBit(ie[2..], ie[1], i, k) <==> psStations > 0 && i < |tim| && BitSet(tim[i], k))
  {
    hide BitSet;
    hide CoveredBit;
    if psStations > 0 && !AllZero(tim) {
      PartialRoundTrip(tim, psStations, count, period, i, k);
    } else {
      EmptyMap(tim, count, period, i, k);
      var ie := TimElement(tim, psStations, count, period, false);
      assert ie[2..] == [count, period, 0, 0];
    }
  }

  lemma PartialRoundTrip(tim: seq<Byte>, psStations: nat, count: Byte, period: Byte, i: Byte, k: int)
    requires |tim| <= 252 && 0 <= k < 8 && psStations > 0 && !AllZero(tim)
    ensures var ie := TimElement(tim, psStations, count, period, false);
      && 6 <= |ie| && |ie| - 2 == ie[1]
      && (CoveredBit(ie[2..], ie[1], i, k) <==> i < |tim| && BitSet(tim[i], k))
  {
    hide BitSet;
    hide CoveredBit;
    hide TimElement;
    hide N1;
    hide FirstSet;
    hide LastSet;
    PartialElement(tim, psStations, count, period, false);
    var ie := TimElement(tim, psStations, count, period, false);
    PartialMap(tim, ie[2..], N1(tim), LastSet(tim), i, k);
  }

  /** Reading the written element answers, for every 16-bit association ID, whether some station sleeps
      and the bit of that ID (in its low eleven bits) is set. */
  lemma TimRoundTrip(tim: seq<Byte>, psStations: nat, count: Byte, period: Byte, aid: nat)
    requires |tim| <= 252
    ensures var ie := TimElement(tim, psStations, count, period, false);
      && 6 <= |ie| && |ie| - 2 == ie[1]
      && (CheckTim(ie[2..], ie[1], aid) <==> psStations > 0 && AidSet(tim, aid % 2048))
  {
    hide BitSet;
    hide CoveredBit;
    hide TimElement;
    ShortIndex(aid);
    CoveredRoundTrip(tim, psStations, count, period, (aid % 2048) / 8, (aid % 2048) % 8);
  }

  lemma EmptyMap(tim: seq<Byte>, count: Byte, period: Byte, i: Byte, k: int)
    requires 0 <= k < 8
    ensures !CoveredBit([count, period, 0, 0], 4, i, k)
    ensures CoveredBit([count, period, 0, 255], 4, i, k) <==> i == 0
    ensures AllZero(tim) && i < |tim| ==> !BitSet(tim[i], k)
  {
    hide BitSet;
    ZeroHasNoBit(k);
    FullHasBit(k);
  }

  lemma FullHasBit(k: int)
    requires 0 <= k < 8
    ensures BitSet(255, k)
  {
  }

  lemma ZeroHasNoBit(k: int)
    requires 0 <= k < 8
    ensures !BitSet(0, k)
  {
  }

  /** For the association IDs that exist, 1 to 2007, there is no reduction. */
  lemma TimRoundTripForAids(tim: seq<Byte>, psStations: nat, count: Byte, period: Byte, aid: nat)
    requires |tim| <= 252 && aid <= 2007
    ensures var ie := TimElement(tim, psStations, count, period, false);
      && 6 <= |ie| && |ie| - 2 == ie[1]
      && (CheckTim(ie[2..], ie[1], aid) <==> psStations > 0 && AidSet(tim, aid))
  {
    hide CoveredBit;
    hide TimElement;
    TimRoundTrip(tim, psStations, count, period, aid);
  }

  /** With the all-ones option, an element for an empty map announces traffic for IDs 0 to 7. */
  lemma TimAllOnes(tim: seq<Byte>, psStations: nat, count: Byte, period: Byte, aid: nat)
    requires |tim| <= 252
    ensures var ie := TimElement(tim, psStations, count, period, true);
      && 6 <= |ie| && |ie| - 2 == ie[1]
      && (CheckTim(ie[2..], ie[1], aid) <==>
            if psStations > 0 && !AllZero(tim) then AidSet(tim, aid % 2048) else aid % 2048 < 8)
  {
    hide BitSet;
    hide CoveredBit;
    if psStations > 0 && !AllZero(tim) {
      TimRoundTrip(tim, psStations, count, period, aid);
    } else {
      ShortIndex(aid);
      EmptyMap(tim, count, period, (aid % 2048) / 8, (aid % 2048) % 8);
      var ie := TimElement(tim, psStations, count, period, true);
      assert ie[2..] == [count, period, 0, 255];
    }
  }

  // ---- Writer ----

  /** `bitmap_empty` over association IDs 0 to maxAid. */
  ghost predicate NoBits(tim: seq<Byte>, maxAid: nat) {
    forall a | 0 <= a <= maxAid :: !AidSet(tim, a)
  }

  /** A bitmap with bits only up to maxAid is empty exactly when all its bytes are zero. */
  lemma NoBitsIsZero(tim: seq<Byte>, maxAid: nat)
    requires |tim| == TimLen(maxAid)
    requires forall a | maxAid < a < 8 * |tim| :: !AidSet(tim, a)
    ensures NoBits(tim, maxAid) <==> AllZero(tim)
  {
    hide BitSet;
    if AllZero(tim) {
      forall a | 0 <= a <= maxAid
        ensures !AidSet(tim, a)
      {
        ZeroHasNoBit(a % 8);
      }
    } else {
      var i :| 0 <= i < |tim| && tim[i] != 0;
      NonZeroHasBit(tim[i]);
      var k :| 0 <= k < 8 && BitSet(tim[i], k);
      ByteAndBit(i, k);
      assert AidSet(tim, 8 * i + k);
    }
  }

  lemma ByteAndBit(i: nat, k: int)
    requires 0 <= k < 8
    ensures (8 * i + k) / 8 == i && (8 * i + k) % 8 == k
  {
  }

  /** `ieee80211_beacon_add_tim`: writes the element at the start of `eid` and returns its end. */
  method BeaconAddTim(tim: array<Byte>, maxAid: nat, psStations: nat, count: Byte, period: Byte,
                      allOnes: bool, eid: array<Byte>) returns (pos: nat)
    requires tim.Length == TimLen(maxAid) && maxAid <= 2007
    requires forall a | maxAid < a < 8 * tim.Length :: !AidSet(tim[..], a)
    requires eid != tim && eid.Length >= 6 + tim.Length
    modifies eid
    ensures pos <= eid.Length
    ensures eid[..pos] == TimElement(tim[..], psStations, count, period, allOnes)
    ensures eid[pos..] == old(eid[..])[pos..]
  {
    var haveBits := false;
    if psStations > 0 {
      haveBits := HaveBits(tim, maxAid);
    }
    eid[0], eid[1], eid[2], eid[3] := EID_TIM, 4, count, period;
    pos := 4;
    if haveBits {
      pos := WritePartialMap(tim, eid);
    } else {
      eid[4] := 0;
      eid[5] := if allOnes then 255 else 0;
      pos := 6;
    }
  }

  /** Bitmap control, the bytes from the first to the last non-zero one, and the length. */
  method WritePartialMap(tim: array<Byte>, eid: array<Byte>) returns (pos: nat)
    requires !AllZero(tim[..]) && tim.Length <= 252 && eid != tim && eid.Length >= 6 + tim.Length
    modifies eid
    ensures var n1, n2 := N1(tim[..]), LastSet(tim[..]);
      && 0 <= n1 <= n2 < tim.Length && pos == n2 - n1 + 6
      && eid[..pos] == [old(eid[0]), n2 - n1 + 4, old(eid[2]), old(eid[3]), n1] + tim[n1..n2 + 1]
    ensures eid[pos..] == old(eid[..])[pos..]
  {
    hide N1;
    hide LastSet;
    hide FirstSet;
    hide AllZero;
    ghost var before := eid[..];
    RangeInside(tim[..]);
    var n1, n2 := FindRange(tim);
    eid[4] := n1;
    assert eid[..] == before[4 := n1];
    CopyBytes(tim, n1, n2 - n1 + 1, eid, 5);
    eid[1] := n2 - n1 + 4;
    pos := n2 - n1 + 6;
    Assembled(before, n1, n2 - n1 + 4, tim[n1..n2 + 1], eid[..]);
  }

  lemma RangeInside(tim: seq<Byte>)
    requires !AllZero(tim)
    ensures 0 <= N1(tim) <= LastSet(tim) < |tim|
  {
    NonZeroRange(tim);
  }

  /** The bytes after the writes to the control field, the bitmap and the length. */
  lemma Assembled(before: seq<Byte>, control: Byte, len: Byte, bits: seq<Byte>, after: seq<Byte>)
    requires |before| >= 5 + |bits|
    requires after == (before[4 := control][..5] + bits + before[4 := control][5 + |bits|..])[1 := len]
    ensures after[..5 + |bits|] == [before[0], len, before[2], before[3], control] + bits
    ensures after[5 + |bits|..] == before[5 + |bits|..]
  {
  }

  /** MEMCPY of `n` bytes. */
  method CopyBytes(src: array<Byte>, from: nat, n: nat, dst: array<Byte>, at: nat)
    requires src != dst && from + n <= src.Length && at + n <= dst.Length
    modifies dst
    ensures dst[..] == old(dst[..])[..at] + src[from..from + n] + old(dst[..])[at + n..]
  {
    for i := 0 to n
      invariant dst[..] == old(dst[..])[..at] + src[from..from + i] + old(dst[..])[at + i..]
    {
      dst[at + i] := src[from + i];
    }
  }

  method HaveBits(tim: array<Byte>, maxAid: nat) returns (some: bool)
    requires tim.Length == TimLen(maxAid)
    requires forall a | maxAid < a < 8 * tim.Length :: !AidSet(tim[..], a)
    ensures some <==> !NoBits(tim[..], maxAid)
    ensures some <==> !AllZero(tim[..])
  {
    NoBitsIsZero(tim[..], maxAid);
    for i := 0 to tim.Length
      invariant forall k | 0 <= k < i :: tim[k] == 0
    {
      if tim[i] != 0 {
        return true;
      }
    }
    some := false;
  }

  /** The two scans of the bitmap. */
  method FindRange(tim: array<Byte>) returns (n1: nat, n2: nat)
    requires !AllZero(tim[..]) && tim.Length <= 252
    ensures n1 == N1(tim[..]) && n2 == LastSet(tim[..])
  {
    ghost var bits := tim[..];
    NonZeroRange(bits);
    n1 := 0;
    var j := 0;
    while j < tim.Length
      invariant j <= FirstSet(bits, 0) && n1 == 0
    {
      if tim[j] != 0 {
        n1 := j - j % 2;
        break;
      }
      j := j + 1;
    }
    n2 := n1;
    var i := tim.Length - 1;
    while i >= n1
      invariant LastSet(bits) <= i < tim.Length && n2 == n1 && n1 == N1(bits)
    {
      if tim[i] != 0 {
        n2 := i;
        break;
      }
      i := i - 1;
    }
  }
}
