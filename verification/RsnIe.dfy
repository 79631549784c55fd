/**
 The reader of the RSN information element, on arbitrary bytes, and the round trip with its writer: what
 the access point announces is read back as exactly the suites it was configured with.
 */
module RsnIe {
  import opened Common
  import opened KeyData

  datatype CipherBit = NoneBit | Wep40Bit | TkipBit | CcmpBit | Wep104Bit
  datatype AkmBit = Ieee8021xBit | PskBit

  /** `struct wpa_ie_data`; the bit fields are sets. */
  datatype RsnData = RsnData(
    group: set<CipherBit>, pairwise: set<CipherBit>, keyMgmt: set<AkmBit>, capabilities: int, pmkids: nat)

  datatype RsnResult = Rejected(code: int) | Accepted(data: RsnData)

  /** What an element that stops early stands for. */
  const DEFAULTS := RsnData({CcmpBit}, {CcmpBit}, {Ieee8021xBit}, 0, 0)

  const RSN_VERSION := 1
  const RSN_HEADER := 4
  const RSN_SELECTOR_LEN := 4

  // ---- Reader ----

  /** `rsn_selector_to_bitfield`. */
  function CipherOf(s: seq<int>): set<CipherBit> {
    if s == Suite(0) then {NoneBit}
    else if s == Suite(1) then {Wep40Bit}
    else if s == Suite(2) then {TkipBit}
    else if s == Suite(4) then {CcmpBit}
    else if s == Suite(5) then {Wep104Bit}
    else {}
  }

  /** `rsn_key_mgmt_to_bitfield`. */
  function AkmOf(s: seq<int>): set<AkmBit> {
    if s == Suite(1) then {Ieee8021xBit} else if s == Suite(2) then {PskBit} else {}
  }

  function Le16(ie: seq<int>, pos: nat): int
    requires pos + 2 <= |ie|
  {
    ie[pos + 1] * 256 + ie[pos]
  }

  function CiphersAt(ie: seq<int>, pos: nat, n: nat): set<CipherBit>
    requires pos + n * RSN_SELECTOR_LEN <= |ie|
  {
    if n == 0 then {}
    else
      var last := pos + (n - 1) * RSN_SELECTOR_LEN;
      CiphersAt(ie, pos, n - 1) + CipherOf(ie[last..last + RSN_SELECTOR_LEN])
  }

  function AkmsAt(ie: seq<int>, pos: nat, n: nat): set<AkmBit>
    requires pos + n * RSN_SELECTOR_LEN <= |ie|
  {
    if n == 0 then {}
    else
      var last := pos + (n - 1) * RSN_SELECTOR_LEN;
      AkmsAt(ie, pos, n - 1) + AkmOf(ie[last..last + RSN_SELECTOR_LEN])
  }

  function ReadRest(ie: seq<int>, pos: nat, d: RsnData): RsnResult
    requires Bytes(ie) && pos <= |ie|
  {
    if |ie| - pos < 2 then Accepted(d)
    else
      var e := d.(capabilities := Le16(ie, pos));
      if |ie| - pos < 4 then Accepted(e)
      else if |ie| - pos - 4 < Le16(ie, pos + 2) * PMKID_LEN then Rejected(-9)
      else Accepted(e.(pmkids := Le16(ie, pos + 2)))
  }

  function ReadAkms(ie: seq<int>, pos: nat, d: RsnData): RsnResult
    requires Bytes(ie) && pos <= |ie|
  {
    if |ie| - pos == 1 then Rejected(-7)
    else if pos == |ie| then ReadRest(ie, pos, d)
    else
      var n := Le16(ie, pos);
      if n == 0 || |ie| - pos - 2 < n * RSN_SELECTOR_LEN then Rejected(-6)
      else ReadRest(ie, pos + 2 + n * RSN_SELECTOR_LEN, d.(keyMgmt := AkmsAt(ie, pos + 2, n)))
  }

  function ReadPairwise(ie: seq<int>, pos: nat, d: RsnData): RsnResult
    requires Bytes(ie) && pos <= |ie|
  {
    if |ie| - pos == 1 then Rejected(-5)
    else if pos == |ie| then ReadAkms(ie, pos, d)
    else
      var n := Le16(ie, pos);
      if n == 0 || |ie| - pos - 2 < n * RSN_SELECTOR_LEN then Rejected(-4)
      else ReadAkms(ie, pos + 2 + n * RSN_SELECTOR_LEN, d.(pairwise := CiphersAt(ie, pos + 2, n)))
  }

  function ReadRsn(ie: seq<int>): RsnResult
    requires Bytes(ie)
  {
    if |ie| < RSN_HEADER then Rejected(-1)
    else if ie[0] != EID_RSN || ie[1] != |ie| - 2 || Le16(ie, 2) != RSN_VERSION then Rejected(-2)
    else if |ie| == RSN_HEADER then ReadPairwise(ie, RSN_HEADER, DEFAULTS)
    else if |ie| < 8 then Rejected(-3)
    else ReadPairwise(ie, 8, DEFAULTS.(group := CipherOf(ie[4..8])))
  }

  method ReadCiphers(ie: seq<int>, pos: nat, n: nat) returns (bits: set<CipherBit>)
    requires pos + n * RSN_SELECTOR_LEN <= |ie|
    ensures bits == CiphersAt(ie, pos, n)
  {
    bits := {};
    for i := 0 to n
      invariant bits == CiphersAt(ie, pos, i)
    {
      var at := pos + i * RSN_SELECTOR_LEN;
      bits := bits + CipherOf(ie[at..at + RSN_SELECTOR_LEN]);
    }
  }

  method ReadKeyMgmts(ie: seq<int>, pos: nat, n: nat) returns (bits: set<AkmBit>)
    requires pos + n * RSN_SELECTOR_LEN <= |ie|
    ensures bits == AkmsAt(ie, pos, n)
  {
    bits := {};
    for i := 0 to n
      invariant bits == AkmsAt(ie, pos, i)
    {
      var at := pos + i * RSN_SELECTOR_LEN;
      bits := bits + AkmOf(ie[at..at + RSN_SELECTOR_LEN]);
    }
  }

  /** `wpa_parse_wpa_ie_rsn`. */
  method ParseWpaIeRsn(ie: seq<int>) returns (r: RsnResult)
    requires Bytes(ie)
    ensures r == ReadRsn(ie)
  {
    hide CiphersAt;
    hide AkmsAt;
    if |ie| < RSN_HEADER {
      return Rejected(-1);
    }
    if ie[0] != EID_RSN || ie[1] != |ie| - 2 || Le16(ie, 2) != RSN_VERSION {
      return Rejected(-2);
    }
    var data := DEFAULTS;
    var pos := RSN_HEADER;
    if |ie| - pos >= RSN_SELECTOR_LEN {
      data := data.(group := CipherOf(ie[pos..pos + RSN_SELECTOR_LEN]));
      pos := pos + RSN_SELECTOR_LEN;
    } else if |ie| - pos > 0 {
      return Rejected(-3);
    }
    assert ReadRsn(ie) == ReadPairwise(ie, pos, data);
    if |ie| - pos >= 2 {
      var count := Le16(ie, pos);
      if count == 0 || |ie| - pos - 2 < count * RSN_SELECTOR_LEN {
        return Rejected(-4);
      }
      var ciphers := ReadCiphers(ie, pos + 2, count);
      data := data.(pairwise := ciphers);
      pos := pos + 2 + count * RSN_SELECTOR_LEN;
    } else if |ie| - pos == 1 {
      return Rejected(-5);
    }
    assert ReadRsn(ie) == ReadAkms(ie, pos, data);
    if |ie| - pos >= 2 {
      var count := Le16(ie, pos);
      if count == 0 || |ie| - pos - 2 < count * RSN_SELECTOR_LEN {
        return Rejected(-6);
      }
      var akms := ReadKeyMgmts(ie, pos + 2, count);
      data := data.(keyMgmt := akms);
      pos := pos + 2 + count * RSN_SELECTOR_LEN;
    } else if |ie| - pos == 1 {
      return Rejected(-7);
    }
    if |ie| - pos >= 2 {
      data := data.(capabilities := Le16(ie, pos));
      pos := pos + 2;
    }
    if |ie| - pos >= 2 {
      var count := Le16(ie, pos);
      if |ie| - pos - 2 < count * PMKID_LEN {
        return Rejected(-9);
      }
      data := data.(pmkids := count);
    }
    r := Accepted(data);
  }

  // ---- Suite lists ----

  function EncodeSuites(codes: seq<int>): (s: seq<int>)
    ensures |s| == |codes| * RSN_SELECTOR_LEN
  {
    if codes == [] then [] else EncodeSuites(codes[..|codes| - 1]) + Suite(codes[|codes| - 1])
  }

  /** Reading a list of suites back gives exactly those that are listed. */
  lemma {:induction false} SuitesReadBack(ie: seq<int>, pos: nat, codes: seq<int>, b: CipherBit, k: AkmBit)
    requires pos + |codes| * RSN_SELECTOR_LEN <= |ie|
    requires ie[pos..pos + |codes| * RSN_SELECTOR_LEN] == EncodeSuites(codes)
    ensures b in CiphersAt(ie, pos, |codes|) <==> exists c <- codes :: b in CipherOf(Suite(c))
    ensures k in AkmsAt(ie, pos, |codes|) <==> exists c <- codes :: k in AkmOf(Suite(c))
    decreases |codes|
  {
    hide CipherOf;
    hide AkmOf;
    hide Suite;
    if codes != [] {
      var n := |codes| - 1;
      var front, last, at := codes[..n], codes[n], pos + n * RSN_SELECTOR_LEN;
      var s := ie[pos..pos + |codes| * RSN_SELECTOR_LEN];
      LastSuite(front, last);
      assert ie[pos..at] == s[..n * RSN_SELECTOR_LEN];
      assert ie[at..at + RSN_SELECTOR_LEN] == s[n * RSN_SELECTOR_LEN..];
      assert codes == front + [last];
      SuitesReadBack(ie, pos, front, b, k);
    }
  }

  lemma LastSuite(front: seq<int>, last: int)
    ensures var s, n := EncodeSuites(front + [last]), |front| * RSN_SELECTOR_LEN;
      |s| == n + RSN_SELECTOR_LEN && s[..n] == EncodeSuites(front) && s[n..] == Suite(last)
  {
    assert (front + [last])[..|front|] == front;
  }

  function PairwiseCodes(c: AuthConfig): seq<int> {
    If(c.ccmp, [4]) + If(c.tkip, [2]) + If(c.none, [0])
  }

  function AkmCodes(c: AuthConfig): seq<int> {
    If(c.ieee8021x, [1]) + If(c.psk, [2])
  }

  lemma {:induction false} SuitesConcat(a: seq<int>, b: seq<int>)
    ensures EncodeSuites(a + b) == EncodeSuites(a) + EncodeSuites(b)
    decreases |b|
  {
    hide Suite;
    if b == [] {
      assert a + b == a;
    } else {
      assert (a + b)[..|a + b| - 1] == a + b[..|b| - 1];
      SuitesConcat(a, b[..|b| - 1]);
    }
  }

  lemma OneSuite(b: bool, n: int)
    ensures EncodeSuites(If(b, [n])) == If(b, Suite(n))
  {
    if b { LastSuite([], n); assert [] + [n] == [n]; }
  }

  lemma PartsAreLists(c: AuthConfig)
    ensures PairwisePart(c) == [|PairwiseCodes(c)|, 0] + EncodeSuites(PairwiseCodes(c))
    ensures AkmPart(c) == [|AkmCodes(c)|, 0] + EncodeSuites(AkmCodes(c))
  {
    hide Suite;
    hide EncodeSuites;
    OneSuite(c.ccmp, 4);
    OneSuite(c.tkip, 2);
    OneSuite(c.none, 0);
    OneSuite(c.ieee8021x, 1);
    OneSuite(c.psk, 2);
    SuitesConcat(If(c.ccmp, [4]) + If(c.tkip, [2]), If(c.none, [0]));
    SuitesConcat(If(c.ccmp, [4]), If(c.tkip, [2]));
    SuitesConcat(If(c.ieee8021x, [1]), If(c.psk, [2]));
  }

  // ---- Round trip ----

  /** The positions of the parts of a written element. */
  lemma ElementLayout(group: seq<int>, p: seq<int>, a: seq<int>, caps: seq<int>, np: int, na: int, len: int)
    requires |group| == 4 && |caps| == 2
    ensures var ie := [EID_RSN, len] + ([1, 0] + group + ([np, 0] + p) + ([na, 0] + a) + caps);
            var x, y := 10 + |p|, 12 + |p| + |a|;
      && |ie| == y + 2 && ie[0] == EID_RSN && ie[1] == len && ie[2] == 1 && ie[3] == 0 && ie[4..8] == group
      && ie[8] == np && ie[9] == 0 && ie[10..x] == p && ie[x] == na && ie[x + 1] == 0
      && ie[x + 2..y] == a && ie[y] == caps[0] && ie[y + 1] == caps[1]
  {
  }

  /** The suites of a list that reads as `ciphers`, in the middle of a written element. */
  lemma ReadsLists(ie: seq<int>, pcodes: seq<int>, acodes: seq<int>)
    requires Bytes(ie) && 1 <= |pcodes| <= 3 && 1 <= |acodes| <= 2
    requires var x := 10 + |pcodes| * 4;
             var y := x + 2 + |acodes| * 4;
      && |ie| == y + 2 && ie[0] == EID_RSN && ie[1] == |ie| - 2 && ie[2] == 1 && ie[3] == 0
      && ie[8] == |pcodes| && ie[9] == 0 && ie[x] == |acodes| && ie[x + 1] == 0
    ensures var x := 10 + |pcodes| * 4;
            var y := x + 2 + |acodes| * 4;
      ReadRsn(ie) == Accepted(RsnData(CipherOf(ie[4..8]), CiphersAt(ie, 10, |pcodes|), AkmsAt(ie, x + 2, |acodes|),
                                      ie[y + 1] * 256 + ie[y], 0))
  {
    hide CiphersAt;
    hide AkmsAt;
    hide CipherOf;
  }

  /** The element written for a configuration is read back as exactly that configuration: its group cipher,
      its pairwise ciphers, its key management suites and its capabilities. */
  lemma RsnRoundTrip(c: AuthConfig)
    requires WriteRsnIe(c).Some?
    ensures Bytes(WriteRsnIe(c).value)
    ensures var r := ReadRsn(WriteRsnIe(c).value);
      && r.Accepted?
      && r.data.group == GroupBit(c.group)
      && (CcmpBit in r.data.pairwise <==> c.ccmp) && (TkipBit in r.data.pairwise <==> c.tkip)
      && (NoneBit in r.data.pairwise <==> c.none)
      && Wep40Bit !in r.data.pairwise && Wep104Bit !in r.data.pairwise
      && (Ieee8021xBit in r.data.keyMgmt <==> c.ieee8021x) && (PskBit in r.data.keyMgmt <==> c.psk)
      && r.data.capabilities == (if c.preauth then 1 else 0) + (if c.wmm then 12 else 0) + (if c.peerkey then 512 else 0)
      && r.data.pmkids == 0
  {
    hide CiphersAt;
    hide AkmsAt;
    hide EncodeSuites;
    hide ReadRsn;
    hide PairwisePart;
    hide AkmPart;
    RsnIeWellFormed(c);
    PartsAreLists(c);
    var ie, p, a := WriteRsnIe(c).value, PairwiseCodes(c), AkmCodes(c);
    var group, caps := Suite(GroupSuite(c.group)), Capabilities(c);
    ElementLayout(group, EncodeSuites(p), EncodeSuites(a), caps, |p|, |a|, |RsnBody(c)|);
    ReadsLists(ie, p, a);
    PairwiseBits(c, ie);
    AkmBits(c, ie, 12 + |p| * RSN_SELECTOR_LEN);
  }

  function GroupBit(c: Cipher): set<CipherBit> {
    match c
    case Ccmp => {CcmpBit}
    case Tkip => {TkipBit}
    case Wep104 => {Wep104Bit}
    case Wep40 => {Wep40Bit}
    case OtherCipher => {}
  }

  lemma PairwiseBits(c: AuthConfig, ie: seq<int>)
    requires var p := PairwiseCodes(c); 10 + |p| * 4 <= |ie| && ie[10..10 + |p| * 4] == EncodeSuites(p)
    ensures var bits := CiphersAt(ie, 10, |PairwiseCodes(c)|);
      && (CcmpBit in bits <==> c.ccmp) && (TkipBit in bits <==> c.tkip) && (NoneBit in bits <==> c.none)
      && Wep40Bit !in bits && Wep104Bit !in bits
  {
    hide CiphersAt;
    PairwiseBitIn(c, ie, CcmpBit);
    PairwiseBitIn(c, ie, TkipBit);
    PairwiseBitIn(c, ie, NoneBit);
    PairwiseBitIn(c, ie, Wep40Bit);
    PairwiseBitIn(c, ie, Wep104Bit);
  }

  lemma PairwiseBitIn(c: AuthConfig, ie: seq<int>, b: CipherBit)
    requires var p := PairwiseCodes(c); 10 + |p| * 4 <= |ie| && ie[10..10 + |p| * 4] == EncodeSuites(p)
    ensures b in CiphersAt(ie, 10, |PairwiseCodes(c)|) <==>
            (b == CcmpBit && c.ccmp) || (b == TkipBit && c.tkip) || (b == NoneBit && c.none)
  {
    hide CiphersAt;
    hide EncodeSuites;
    hide PairwiseCodes;
    hide CipherOf;
    hide Suite;
    SuitesReadBack(ie, 10, PairwiseCodes(c), b, PskBit);
    CodesListed(c);
    SuiteBits();
  }

  lemma AkmBits(c: AuthConfig, ie: seq<int>, at: nat)
    requires var a := AkmCodes(c); at + |a| * 4 <= |ie| && ie[at..at + |a| * 4] == EncodeSuites(a)
    ensures var bits := AkmsAt(ie, at, |AkmCodes(c)|);
      (Ieee8021xBit in bits <==> c.ieee8021x) && (PskBit in bits <==> c.psk)
  {
    hide AkmsAt;
    hide EncodeSuites;
    var a := AkmCodes(c);
    SuitesReadBack(ie, at, a, CcmpBit, Ieee8021xBit);
    SuitesReadBack(ie, at, a, CcmpBit, PskBit);
    CodesListed(c);
    SuiteBits();
  }

  lemma CodesListed(c: AuthConfig)
    ensures forall n :: n in PairwiseCodes(c) <==> (n == 4 && c.ccmp) || (n == 2 && c.tkip) || (n == 0 && c.none)
    ensures forall n :: n in AkmCodes(c) <==> (n == 1 && c.ieee8021x) || (n == 2 && c.psk)
  {
  }

  lemma SuiteBits()
    ensures CipherOf(Suite(4)) == {CcmpBit} && CipherOf(Suite(2)) == {TkipBit} && CipherOf(Suite(0)) == {NoneBit}
    ensures AkmOf(Suite(1)) == {Ieee8021xBit} && AkmOf(Suite(2)) == {PskBit}
  {
    assert Suite(0)[3] == 0 && Suite(1)[3] == 1 && Suite(2)[3] == 2 && Suite(4)[3] == 4;
  }

  /** The element of a plain WPA2 cell with a pre-shared key, octet by octet. */
  lemma Wpa2PskElement()
    ensures WriteRsnIe(AuthConfig(Ccmp, true, false, false, false, true, false, false, false)) ==
      Some([48, 20] + [1, 0, 0x00, 0x0f, 0xac, 4] + [1, 0, 0x00, 0x0f, 0xac, 4] + [1, 0, 0x00, 0x0f, 0xac, 2] + [0, 0])
  {
    hide GroupPart;
    hide PairwisePart;
    hide AkmPart;
    hide Capabilities;
    var c := AuthConfig(Ccmp, true, false, false, false, true, false, false, false);
    Wpa2PskParts(c);
    assert PairwiseCount(c) == 1 && AkmCount(c) == 1;
    var ie := [EID_RSN, |RsnBody(c)|] + RsnBody(c);
    assert ie == [48, 20] + [1, 0, 0x00, 0x0f, 0xac, 4] + [1, 0, 0x00, 0x0f, 0xac, 4] + [1, 0, 0x00, 0x0f, 0xac, 2] + [0, 0];
  }

  lemma Wpa2PskParts(c: AuthConfig)
    requires c == AuthConfig(Ccmp, true, false, false, false, true, false, false, false)
    ensures GroupPart(c) == [1, 0, 0x00, 0x0f, 0xac, 4] && PairwisePart(c) == [1, 0, 0x00, 0x0f, 0xac, 4]
    ensures AkmPart(c) == [1, 0, 0x00, 0x0f, 0xac, 2] && Capabilities(c) == [0, 0]
  {
  }
}
