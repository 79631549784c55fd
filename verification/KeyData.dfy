/**
 EAPOL-Key Key Data: the writer of the RSN information element and of key data encapsulations, the
 padding for key wrap, and the parser. Offsets stand for the driver's pointers.
 */
module KeyData {
  import opened Common

  const EID_RSN := 48
  const EID_VENDOR := 0xdd

  const WPA_OUI_TYPE := [0x00, 0x50, 0xf2, 1]
  const GROUPKEY := [0x00, 0x0f, 0xac, 1]
  const MAC_ADDR := [0x00, 0x0f, 0xac, 3]
  const PMKID := [0x00, 0x0f, 0xac, 4]
  const PMKID_LEN := 16

  ghost predicate Bytes(s: seq<int>) {
    forall i | 0 <= i < |s| :: 0 <= s[i] < 256
  }

  /** A pointer and a length into the key data, or a null pointer. */
  datatype Range = Absent | Range(start: int, len: int)

  /** `struct wpa_eapol_ie_parse`. */
  datatype Parsed = Parsed(rsn: Range, wpa: Range, pmkid: Range, gtk: Range, mac: Range)

  const NOTHING := Parsed(Absent, Absent, Absent, Absent, Absent)

  datatype Result = Result(ok: bool, ie: Parsed)

  // ---- Parser ----

  /** `wpa_parse_generic` at a vendor element of length `len` whose payload is `body`. */
  function Vendor(ie: Parsed, pos: int, body: seq<int>): Parsed {
    var n := |body|;
    if n >= 6 && body[..4] == WPA_OUI_TYPE && body[4] == 1 && body[5] == 0 then
      ie.(wpa := Range(pos, n + 2))
    else if n >= 4 + PMKID_LEN && body[..4] == PMKID then
      ie.(pmkid := Range(pos + 6, PMKID_LEN))
    else if n > 6 && body[..4] == GROUPKEY then
      ie.(gtk := Range(pos + 6, n - 4))
    else if n > 6 && body[..4] == MAC_ADDR then
      ie.(mac := Range(pos + 6, n - 4))
    else ie
  }

  /** What one element at `pos` adds. */
  function Absorb(ie: Parsed, pos: int, id: int, body: seq<int>): Parsed {
    if id == EID_RSN then ie.(rsn := Range(pos, |body| + 2))
    else if id == EID_VENDOR then Vendor(ie, pos, body)
    else ie
  }

  /** `wpa_parse_kde_ies` from `pos` on. */
  function Parse(buf: seq<int>, pos: nat, ie: Parsed): Result
    requires Bytes(buf)
    decreases |buf| - pos
  {
    if pos + 1 >= |buf| then Result(true, ie)
    else if buf[pos] == EID_VENDOR && buf[pos + 1] == 0 then Result(true, ie)
    else if pos + 2 + buf[pos + 1] > |buf| then Result(false, ie)
    else
      var next := pos + 2 + buf[pos + 1];
      Parse(buf, next, Absorb(ie, pos, buf[pos], buf[pos + 2..next]))
  }

  /** The parsing loop as the driver runs it. */
  method ParseKdeIes(buf: seq<int>) returns (r: Result)
    requires Bytes(buf)
    ensures r == Parse(buf, 0, NOTHING)
  {
    var ie := NOTHING;
    var pos := 0;
    while pos + 1 < |buf|
      invariant 0 <= pos
      invariant Parse(buf, 0, NOTHING) == Parse(buf, pos, ie)
      decreases |buf| - pos
    {
      if buf[pos] == EID_VENDOR && (pos == |buf| - 1 || buf[pos + 1] == 0) {
        break;
      }
      var next := pos + 2 + buf[pos + 1];
      if next > |buf| {
        return Result(false, ie);
      }
      if buf[pos] == EID_RSN {
        ie := ie.(rsn := Range(pos, buf[pos + 1] + 2));
      } else if buf[pos] == EID_VENDOR {
        ie := Vendor(ie, pos, buf[pos + 2..next]);
      }
      pos := next;
    }
    r := Result(true, ie);
  }

  // ---- Arbitrary input ----

  predicate Inside(r: Range, n: int) {
    r.Range? ==> 0 <= r.start && 0 <= r.len && r.start + r.len <= n
  }

  predicate AllInside(ie: Parsed, n: int) {
    Inside(ie.rsn, n) && Inside(ie.wpa, n) && Inside(ie.pmkid, n) && Inside(ie.gtk, n) && Inside(ie.mac, n)
  }

  /** On any bytes whatsoever the parser ends, and every range it returns lies inside the buffer. */
  lemma {:induction false} ParsedInside(buf: seq<int>, pos: nat, ie: Parsed)
    requires Bytes(buf) && AllInside(ie, |buf|)
    ensures AllInside(Parse(buf, pos, ie).ie, |buf|)
    decreases |buf| - pos
  {
    if pos + 1 < |buf| && !(buf[pos] == EID_VENDOR && buf[pos + 1] == 0) {
      var next := pos + 2 + buf[pos + 1];
      if next <= |buf| {
        ParsedInside(buf, next, Absorb(ie, pos, buf[pos], buf[pos + 2..next]));
      }
    }
  }

  // ---- Elements ----

  datatype Element = Element(id: int, body: seq<int>)

  function Encode(e: Element): seq<int> {
    [e.id, |e.body|] + e.body
  }

  /** Elements the parser reads as such: one-byte length, and not the end mark. */
  predicate Ordinary(e: Element) {
    |e.body| < 256 && !(e.id == EID_VENDOR && e.body == [])
  }

  function EncodeAll(es: seq<Element>): seq<int> {
    if es == [] then [] else Encode(es[0]) + EncodeAll(es[1..])
  }

  /** What a list of elements starting at `pos` amounts to. */
  function AbsorbAll(ie: Parsed, pos: int, es: seq<Element>): Parsed
    decreases |es|
  {
    if es == [] then ie
    else AbsorbAll(Absorb(ie, pos, es[0].id, es[0].body), pos + 2 + |es[0].body|, es[1..])
  }

  /** Padding: nothing, or 0xdd followed by zeros. */
  predicate Padding(tail: seq<int>) {
    tail == [] || (tail[0] == EID_VENDOR && (|tail| > 1 ==> tail[1] == 0))
  }

  /** Parsing any list of ordinary elements, with or without padding, sees exactly those elements. */
  lemma {:induction false} ParseElements(buf: seq<int>, pos: nat, ie: Parsed, es: seq<Element>, tail: seq<int>)
    requires Bytes(buf) && pos <= |buf| && buf[pos..] == EncodeAll(es) + tail && Padding(tail)
    requires forall e <- es :: Ordinary(e)
    ensures Parse(buf, pos, ie) == Result(true, AbsorbAll(ie, pos, es))
    decreases |es|
  {
    hide Absorb;
    hide Parse;
    hide Encode;
    if es == [] {
      assert buf[pos..] == tail;
      ParseEnd(buf, pos, ie, tail);
    } else {
      var e, rest := es[0], es[1..];
      var next := pos + 2 + |e.body|;
      assert buf[pos..] == Encode(e) + (EncodeAll(rest) + tail);
      ParseOne(buf, pos, ie, e, EncodeAll(rest) + tail);
      ParseElements(buf, next, Absorb(ie, pos, e.id, e.body), rest, tail);
    }
  }

  lemma ParseEnd(buf: seq<int>, pos: nat, ie: Parsed, tail: seq<int>)
    requires Bytes(buf) && pos <= |buf| && buf[pos..] == tail && Padding(tail)
    ensures Parse(buf, pos, ie) == Result(true, ie)
  {
    if |tail| > 1 {
      assert buf[pos] == buf[pos..][0] && buf[pos + 1] == buf[pos..][1];
    }
  }

  lemma ParseOne(buf: seq<int>, pos: nat, ie: Parsed, e: Element, rest: seq<int>)
    requires Bytes(buf) && pos <= |buf| && buf[pos..] == Encode(e) + rest && Ordinary(e)
    ensures var next := pos + 2 + |e.body|;
      && next <= |buf| && buf[next..] == rest
      && Parse(buf, pos, ie) == Parse(buf, next, Absorb(ie, pos, e.id, e.body))
  {
    hide Absorb;
    ElementAt(buf, pos, e, rest);
  }

  lemma ElementAt(buf: seq<int>, pos: nat, e: Element, rest: seq<int>)
    requires pos <= |buf| && buf[pos..] == Encode(e) + rest
    ensures var next := pos + 2 + |e.body|;
      && next <= |buf| && buf[pos] == e.id && buf[pos + 1] == |e.body|
      && buf[pos + 2..next] == e.body && buf[next..] == rest
  {
    var next := pos + 2 + |e.body|;
    var s := buf[pos..];
    assert s[0] == e.id && s[1] == |e.body|;
    assert s[2..2 + |e.body|] == e.body;
    assert s[2 + |e.body|..] == rest;
    assert buf[pos + 2..next] == s[2..2 + |e.body|];
    assert buf[next..] == s[2 + |e.body|..];
  }

  // ---- Writers ----

  /** `wpa_add_kde`: the length is written into one byte. */
  function AddKde(selector: seq<int>, data: seq<int>, data2: seq<int>): seq<int> {
    [EID_VENDOR, (4 + |data| + |data2|) % 256] + selector + data + data2
  }

  function Zeros(n: nat): (z: seq<int>)
    ensures |z| == n && forall i | 0 <= i < n :: z[i] == 0
  {
    seq(n, _ => 0)
  }

  function PadLen(n: nat): nat {
    if n % 8 == 0 then 0 else 8 - n % 8
  }

  /** The plaintext handed to key wrap: padded to a multiple of eight with 0xdd and zeros. */
  function Padded(data: seq<int>): (p: seq<int>)
    ensures |p| % 8 == 0 && data <= p && |p| < |data| + 8
  {
    var n := PadLen(|data|);
    if n == 0 then data else data + [EID_VENDOR] + Zeros(n - 1)
  }

  /** The key data of message 3: the information element and the group key. */
  function Message3Data(ie: seq<int>, keyIdx: nat, gtk: seq<int>): seq<int> {
    Padded(ie + AddKde(GROUPKEY, [keyIdx % 4, 0], gtk))
  }

  ghost predicate IsRsnIe(ie: seq<int>) {
    |ie| >= 2 && Bytes(ie) && ie[0] == EID_RSN && ie[1] == |ie| - 2
  }

  lemma GtkElement(keyIdx: nat, gtk: seq<int>)
    requires |gtk| <= 249
    ensures AddKde(GROUPKEY, [keyIdx % 4, 0], gtk) == Encode(Element(EID_VENDOR, GROUPKEY + [keyIdx % 4, 0] + gtk))
  {
  }

  lemma PaddedSplit(data: seq<int>)
    ensures Padding(Padded(data)[|data|..])
    ensures Padded(data) == data + Padded(data)[|data|..]
  {
  }

  lemma Message3Bytes(ie: seq<int>, keyIdx: nat, gtk: seq<int>)
    requires Bytes(ie) && Bytes(gtk)
    ensures Bytes(Message3Data(ie, keyIdx, gtk))
  {
    var kde := AddKde(GROUPKEY, [keyIdx % 4, 0], gtk);
    assert Bytes(GROUPKEY);
    assert Bytes(kde);
    assert Bytes(ie + kde);
  }

  /** Parsing the key data of message 3 gives back exactly the information element and, if and only if
      the group key is not empty, the key ID followed by the group key, for every pad length. */
  lemma Message3RoundTrip(ie: seq<int>, keyIdx: nat, gtk: seq<int>)
    requires IsRsnIe(ie) && Bytes(gtk) && |gtk| <= 249
    ensures var data := Message3Data(ie, keyIdx, gtk);
            var at := |ie| + 6;
      && Bytes(data) && |data| % 8 == 0
      && Parse(data, 0, NOTHING) ==
         Result(true, NOTHING.(rsn := Range(0, |ie|), gtk := if |gtk| > 0 then Range(at, 2 + |gtk|) else Absent))
      && data[..|ie|] == ie
      && at + 2 + |gtk| <= |data| && data[at..at + 2 + |gtk|] == [keyIdx % 4, 0] + gtk
  {
    hide Parse;
    hide Padded;
    hide EncodeAll;
    hide AbsorbAll;
    Message3Bytes(ie, keyIdx, gtk);
    GtkElement(keyIdx, gtk);
    var rsn, group := Element(EID_RSN, ie[2..]), Element(EID_VENDOR, GROUPKEY + [keyIdx % 4, 0] + gtk);
    var plain := ie + Encode(group);
    var data := Message3Data(ie, keyIdx, gtk);
    PaddedSplit(plain);
    assert Encode(rsn) == ie;
    TwoElements(NOTHING, rsn, group);
    assert data[0..] == data;
    ParseElements(data, 0, NOTHING, [rsn, group], data[|plain|..]);
    GroupAbsorbed(NOTHING.(rsn := Range(0, |ie|)), |ie|, keyIdx, gtk);
    KeyInPlace(ie, keyIdx, gtk, data);
  }

  lemma KeyInPlace(ie: seq<int>, keyIdx: nat, gtk: seq<int>, data: seq<int>)
    requires ie + Encode(Element(EID_VENDOR, GROUPKEY + [keyIdx % 4, 0] + gtk)) <= data
    ensures var at := |ie| + 6;
      at + 2 + |gtk| <= |data| && data[at..at + 2 + |gtk|] == [keyIdx % 4, 0] + gtk && data[..|ie|] == ie
  {
  }

  lemma TwoElements(ie: Parsed, a: Element, b: Element)
    ensures EncodeAll([a, b]) == Encode(a) + Encode(b)
    ensures AbsorbAll(ie, 0, [a, b]) == Absorb(Absorb(ie, 0, a.id, a.body), 2 + |a.body|, b.id, b.body)
  {
    assert [a, b][1..] == [b];
    assert [b][1..] == [];
    assert EncodeAll([b]) == Encode(b) + EncodeAll([]);
    assert Encode(b) + [] == Encode(b);
    var first, pos := Absorb(ie, 0, a.id, a.body), 2 + |a.body|;
    assert AbsorbAll(first, pos, [b]) == Absorb(first, pos, b.id, b.body);
    assert AbsorbAll(ie, 0, [a, b]) == AbsorbAll(first, pos, [b]);
  }

  lemma GroupAbsorbed(ie: Parsed, pos: int, keyIdx: nat, gtk: seq<int>)
    ensures Vendor(ie, pos, GROUPKEY + [keyIdx % 4, 0] + gtk) ==
      if |gtk| > 0 then ie.(gtk := Range(pos + 6, 2 + |gtk|)) else ie
  {
    var body := GROUPKEY + [keyIdx % 4, 0] + gtk;
    assert body[..4] == GROUPKEY;
    assert GROUPKEY[1] == 0x0f && WPA_OUI_TYPE[1] == 0x50;
    assert GROUPKEY[3] == 1 && PMKID[3] == 4;
  }

  /** A PMKID and a MAC address encapsulation are each read back as what they hold, and as nothing else. */
  lemma KdeReadBack(selector: seq<int>, data: seq<int>)
    requires (selector == PMKID && |data| == PMKID_LEN) || (selector == MAC_ADDR && 3 <= |data| <= 250)
    requires Bytes(data)
    ensures var kde := AddKde(selector, data, []);
      && Bytes(kde) && |kde| == 6 + |data| && kde[6..] == data
      && Parse(kde, 0, NOTHING) ==
         Result(true, if selector == PMKID then NOTHING.(pmkid := Range(6, |data|)) else NOTHING.(mac := Range(6, |data|)))
  {
    hide Parse;
    var kde, e := AddKde(selector, data, []), Element(EID_VENDOR, selector + data);
    assert Bytes(PMKID) && Bytes(MAC_ADDR);
    assert kde == Encode(e);
    assert kde[0..] == Encode(e) + [];
    ParseOne(kde, 0, NOTHING, e, []);
    ParseEnd(kde, |kde|, Absorb(NOTHING, 0, e.id, e.body), []);
    assert e.body[..4] == selector;
    assert selector[1] == 0x0f && WPA_OUI_TYPE[1] == 0x50 && PMKID[3] == 4 && MAC_ADDR[3] == 3 && GROUPKEY[3] == 1;
  }

  // ---- The RSN information element ----

  datatype Cipher = Ccmp | Tkip | Wep104 | Wep40 | OtherCipher

  /** The parts of `struct wpa_auth_config` that go into the element. */
  datatype AuthConfig = AuthConfig(
    group: Cipher, ccmp: bool, tkip: bool, none: bool, ieee8021x: bool, psk: bool,
    preauth: bool, peerkey: bool, wmm: bool)

  function Suite(n: int): seq<int> {
    [0x00, 0x0f, 0xac, n]
  }

  function If(b: bool, s: seq<int>): seq<int> {
    if b then s else []
  }

  function Count(b: bool): int {
    if b then 1 else 0
  }

  function PairwiseCount(c: AuthConfig): int {
    Count(c.ccmp) + Count(c.tkip) + Count(c.none)
  }

  function AkmCount(c: AuthConfig): int {
    Count(c.ieee8021x) + Count(c.psk)
  }

  function GroupSuite(c: Cipher): int
    requires c != OtherCipher
  {
    match c
    case Ccmp => 4
    case Tkip => 2
    case Wep104 => 5
    case Wep40 => 1
  }

  function GroupPart(c: AuthConfig): seq<int>
    requires c.group != OtherCipher
  {
    [1, 0] + Suite(GroupSuite(c.group))
  }

  function PairwisePart(c: AuthConfig): seq<int> {
    [PairwiseCount(c), 0] + If(c.ccmp, Suite(4)) + If(c.tkip, Suite(2)) + If(c.none, Suite(0))
  }

  function AkmPart(c: AuthConfig): seq<int> {
    [AkmCount(c), 0] + If(c.ieee8021x, Suite(1)) + If(c.psk, Suite(2))
  }

  function Capabilities(c: AuthConfig): seq<int> {
    [Count(c.preauth) + (if c.wmm then 12 else 0), if c.peerkey then 2 else 0]
  }

  /** Everything after the element header, in the order it is written. */
  function RsnBody(c: AuthConfig): seq<int>
    requires c.group != OtherCipher
  {
    GroupPart(c) + PairwisePart(c) + AkmPart(c) + Capabilities(c)
  }

  /** `wpa_write_rsn_ie` without a PMKID. */
  function WriteRsnIe(c: AuthConfig): Option<seq<int>> {
    if c.group == OtherCipher || PairwiseCount(c) == 0 || AkmCount(c) == 0 then None
    else Some([EID_RSN, |RsnBody(c)|] + RsnBody(c))
  }

  /** The length the rest of the driver takes for granted. */
  const WPA_IE_LEN := 22

  /** What the writer produces is a well-formed element, and it has the length of the buffer it is copied
      into exactly when one pairwise and one key management suite are configured. */
  lemma RsnIeWellFormed(c: AuthConfig)
    requires WriteRsnIe(c).Some?
    ensures IsRsnIe(WriteRsnIe(c).value)
    ensures |WriteRsnIe(c).value| == WPA_IE_LEN <==> PairwiseCount(c) == 1 && AkmCount(c) == 1
  {
    var body := RsnBody(c);
    assert |body| == 12 + 4 * PairwiseCount(c) + 4 * AkmCount(c);
    RsnBodyBytes(c);
  }

  lemma RsnBodyBytes(c: AuthConfig)
    requires c.group != OtherCipher
    ensures Bytes(RsnBody(c))
  {
    hide GroupPart;
    hide PairwisePart;
    hide AkmPart;
    hide Capabilities;
    hide Bytes;
    PartsBytes(c);
    BytesConcat(GroupPart(c), PairwisePart(c));
    BytesConcat(GroupPart(c) + PairwisePart(c), AkmPart(c));
    BytesConcat(GroupPart(c) + PairwisePart(c) + AkmPart(c), Capabilities(c));
  }

  lemma PartsBytes(c: AuthConfig)
    requires c.group != OtherCipher
    ensures Bytes(GroupPart(c)) && Bytes(PairwisePart(c)) && Bytes(AkmPart(c)) && Bytes(Capabilities(c))
  {
    hide Bytes;
    SmallBytes(c);
    var p := [PairwiseCount(c), 0] + If(c.ccmp, Suite(4));
    SuiteBytes(c.ccmp, 4);
    SuiteBytes(c.tkip, 2);
    SuiteBytes(c.none, 0);
    BytesConcat([PairwiseCount(c), 0], If(c.ccmp, Suite(4)));
    BytesConcat(p, If(c.tkip, Suite(2)));
    BytesConcat(p + If(c.tkip, Suite(2)), If(c.none, Suite(0)));
    SuiteBytes(c.ieee8021x, 1);
    SuiteBytes(c.psk, 2);
    BytesConcat([AkmCount(c), 0], If(c.ieee8021x, Suite(1)));
    BytesConcat([AkmCount(c), 0] + If(c.ieee8021x, Suite(1)), If(c.psk, Suite(2)));
  }

  lemma SmallBytes(c: AuthConfig)
    requires c.group != OtherCipher
    ensures Bytes(GroupPart(c)) && Bytes(Capabilities(c)) && Bytes([PairwiseCount(c), 0]) && Bytes([AkmCount(c), 0])
  {
  }

  lemma SuiteBytes(b: bool, n: int)
    requires 0 <= n < 256
    ensures Bytes(If(b, Suite(n)))
  {
  }

  lemma BytesConcat(a: seq<int>, b: seq<int>)
    requires Bytes(a) && Bytes(b)
    ensures Bytes(a + b)
  {
  }

  /** The whole way: the element written for a configuration with one pairwise and one key management
      suite, sent in message 3 with a group key, is read back whole. */
  lemma ConfiguredMessage3(c: AuthConfig, keyIdx: nat, gtk: seq<int>)
    requires WriteRsnIe(c).Some? && PairwiseCount(c) == 1 && AkmCount(c) == 1
    requires Bytes(gtk) && 0 < |gtk| <= 32
    ensures var ie := WriteRsnIe(c).value;
            var data := Message3Data(ie[..WPA_IE_LEN], keyIdx, gtk);
      && Bytes(data)
      && Parse(data, 0, NOTHING) ==
         Result(true, NOTHING.(rsn := Range(0, WPA_IE_LEN), gtk := Range(WPA_IE_LEN + 6, 2 + |gtk|)))
      && data[..WPA_IE_LEN] == ie
  {
    hide Parse;
    hide WriteRsnIe;
    RsnIeWellFormed(c);
    var ie := WriteRsnIe(c).value;
    assert ie[..WPA_IE_LEN] == ie;
    Message3RoundTrip(ie, keyIdx, gtk);
  }

  /** The byte of an element that is too long for the fixed length, where the copy in message 3 goes on with
      the group key. */
  lemma LongIeByte(c: AuthConfig)
    requires WriteRsnIe(c).Some? && !(PairwiseCount(c) == 1 && AkmCount(c) == 1)
    ensures var ie := WriteRsnIe(c).value; |ie| > WPA_IE_LEN && ie[WPA_IE_LEN] != EID_VENDOR
  {
    hide GroupSuite;
    var ie, body := WriteRsnIe(c).value, RsnBody(c);
    assert |GroupPart(c)| == 6 && |PairwisePart(c)| == 2 + 4 * PairwiseCount(c) && |AkmPart(c)| == 2 + 4 * AkmCount(c);
    assert ie[22] == body[20];
    if PairwiseCount(c) == 1 {
      assert body[20] == AkmPart(c)[8];
    } else {
      LongPairwise(c);
    }
  }

  lemma LongPairwise(c: AuthConfig)
    requires c.group != OtherCipher && PairwiseCount(c) >= 2 && AkmCount(c) >= 1
    ensures RsnBody(c)[20] != EID_VENDOR
  {
    hide GroupSuite;
    assert |GroupPart(c)| == 6 && |PairwisePart(c)| == 2 + 4 * PairwiseCount(c) && |AkmPart(c)| == 2 + 4 * AkmCount(c);
    if PairwiseCount(c) == 2 {
      assert RsnBody(c)[20] == AkmPart(c)[4];
    } else {
      assert RsnBody(c)[20] == AkmPart(c)[0];
    }
  }

  /** Message 3 starts with the configured information element if and only if one pairwise and one key
      management suite are configured: in every other configuration the element is cut. */
  lemma Message3CarriesIeIff(c: AuthConfig, keyIdx: nat, gtk: seq<int>)
    requires WriteRsnIe(c).Some?
    ensures var ie := WriteRsnIe(c).value;
      && |ie| >= WPA_IE_LEN
      && (ie <= Message3Data(ie[..WPA_IE_LEN], keyIdx, gtk) <==> PairwiseCount(c) == 1 && AkmCount(c) == 1)
  {
    hide WriteRsnIe;
    hide PairwiseCount;
    hide AkmCount;
    RsnIeWellFormed(c);
    var ie := WriteRsnIe(c).value;
    if !(PairwiseCount(c) == 1 && AkmCount(c) == 1) { LongIeByte(c); }
    CutPoint(ie[..WPA_IE_LEN], keyIdx, gtk);
    assert ie[..|ie|] == ie;
  }

  lemma CutPoint(front: seq<int>, keyIdx: nat, gtk: seq<int>)
    ensures var data := Message3Data(front, keyIdx, gtk);
      |data| > |front| && data[..|front|] == front && data[|front|] == EID_VENDOR
  {
  }
}
