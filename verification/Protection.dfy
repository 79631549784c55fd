/**
 Protection of the cell against legacy stations: the HT operation mode, a summary of the associated
 stations and of the neighbouring access points, and the table of those neighbours.
 */
module Protection {
  import opened Common

  // ---- HT operation mode ----

  /** The 16-bit mode, field by field: the protection in bits 0 and 1, non-greenfield stations present in
      bit 2, non-HT stations around in bit 4, and the bits the driver never touches. */
  datatype OpMode = OpMode(protection: int, nonGf: bool, obssNonHt: bool, reserved: int)

  /** The numbers of associated stations that matter: HT without greenfield, not HT, HT at 20 MHz only. */
  datatype HtCounts = HtCounts(noGf: int, noHt: int, ht20: int)

  const NO_COUNTS := HtCounts(0, 0, 0)

  /** What the HT operation mode says about the cell: 3 with a non-HT member, else 2 with a 20 MHz member
      of a 40 MHz cell, else 1 with a non-HT neighbour, else 0; and one mark for each kind of station. */
  function HtMode(n: HtCounts, olbcHt: bool, secondary: bool): OpMode {
    OpMode(if n.noHt != 0 then 3 else if secondary && n.ht20 != 0 then 2 else if olbcHt then 1 else 0,
           n.noGf != 0, n.noHt != 0 || olbcHt, 0)
  }

  // ---- Neighbouring access points ----

  const TABLE_SIZE := 8
  const SUPP_RATES_MAX := 32

  /** `time_before` on 32-bit ticks. */
  predicate TimeBefore(a: int, b: int) { TimeAfter(b, a) }

  /** `erp` is -1 when the beacon had no ERP element. */
  datatype Neighbor = Neighbor(addr: int, channel: int, erp: int, rates: seq<int>, htSupport: bool, lastBeacon: int)

  const UNUSED := Neighbor(0, 0, 0, [], false, 0)

  datatype Beacon = Beacon(bssid: int, rates: seq<int>, erp: int, channel: int, hasChannel: bool, ht: bool)

  function Occupied(list: seq<Neighbor>): nat {
    if list == [] then 0 else Occupied(list[..|list| - 1]) + if list[|list| - 1].addr != 0 then 1 else 0
  }

  lemma {:induction false} OccupiedUpdate(list: seq<Neighbor>, i: nat, n: Neighbor)
    requires i < |list|
    ensures Occupied(list[i := n]) == Occupied(list) - (if list[i].addr != 0 then 1 else 0) + (if n.addr != 0 then 1 else 0)
  {
    var k := |list| - 1;
    if i == k {
      assert list[i := n][..k] == list[..k];
    } else {
      assert list[i := n][..k] == list[..k][i := n];
      OccupiedUpdate(list[..k], i, n);
    }
  }

  /** The table is full exactly when no entry is unused. */
  lemma {:induction false} OccupiedAll(list: seq<Neighbor>)
    ensures Occupied(list) <= |list|
    ensures Occupied(list) == |list| <==> (forall i :: 0 <= i < |list| ==> list[i].addr != 0)
  {
    if list != [] {
      var k := |list| - 1;
      OccupiedAll(list[..k]);
      assert forall i :: 0 <= i < k ==> list[..k][i] == list[i];
    }
  }

  lemma {:induction false} NoneOccupied(list: seq<Neighbor>)
    requires forall i :: 0 <= i < |list| ==> list[i].addr == 0
    ensures Occupied(list) == 0
  {
    if list != [] { NoneOccupied(list[..|list| - 1]); }
  }

  /** In units of 500 kb/s, without the mark for a basic rate: at most 11 Mb/s, and neither 6 nor 9. */
  predicate RateIsLegacy(r: int): (legacy: bool)
    ensures legacy <==> r % 128 <= 22 && r % 128 != 12 && r % 128 != 18
  {
    var rate := (r % 128) * 5;
    rate != 60 && rate != 90 && rate <= 110
  }

  /** `ap_list_beacon_olbc`: an 802.11g cell and a neighbour on its channel that reports non-ERP stations
      or offers nothing beyond the 802.11b rates. */
  predicate Legacy(n: Neighbor, modeG: bool, channel: int) {
    && modeG && n.channel == channel
    && ((n.erp != -1 && n.erp % 2 == 1) || forall i :: 0 <= i < |n.rates| ==> RateIsLegacy(n.rates[i]))
  }

  predicate Stored(n: Neighbor) { n.lastBeacon != 0 }

  ghost predicate SomeLegacy(list: seq<Neighbor>, modeG: bool, channel: int) {
    exists i :: 0 <= i < |list| && Stored(list[i]) && Legacy(list[i], modeG, channel)
  }

  ghost predicate SomeNonHt(list: seq<Neighbor>) {
    exists i :: 0 <= i < |list| && Stored(list[i]) && !list[i].htSupport
  }

  predicate EntryOk(n: Neighbor) { n.addr != 0 <==> Stored(n) }

  ghost predicate TableOk(list: seq<Neighbor>) {
    && (forall i :: 0 <= i < |list| ==> EntryOk(list[i]))
    && (forall i, j :: 0 <= i < j < |list| && list[i].addr != 0 ==> list[i].addr != list[j].addr)
  }

  /** The entry that the search for the oldest beacon settles on among the first `k`. */
  function Oldest(list: seq<Neighbor>, k: nat): (i: nat)
    requires 1 <= k <= |list|
    ensures i < k
  {
    if k == 1 then 0
    else var i := Oldest(list, k - 1); if TimeBefore(list[k - 1].lastBeacon, list[i].lastBeacon) then k - 1 else i
  }

  function Age(n: Neighbor, now: int): int { (now - n.lastBeacon) % TICK_MODULO }

  /** As long as no entry is older than half the tick range, the entry replaced is a least recently heard one. */
  lemma {:induction false} OldestIsLeastRecent(list: seq<Neighbor>, k: nat, now: int)
    requires 1 <= k <= |list|
    requires forall i :: 0 <= i < k ==> Age(list[i], now) < TICK_MODULO / 2
    ensures forall i :: 0 <= i < k ==> Age(list[i], now) <= Age(list[Oldest(list, k)], now)
  {
    if k > 1 {
      OldestIsLeastRecent(list, k - 1, now);
      TimeBeforeIsOlder(list[k - 1].lastBeacon, list[Oldest(list, k - 1)].lastBeacon, now);
    }
  }

  lemma TimeBeforeIsOlder(a: int, b: int, now: int)
    requires (now - a) % TICK_MODULO < TICK_MODULO / 2 && (now - b) % TICK_MODULO < TICK_MODULO / 2
    ensures TimeBefore(a, b) <==> (now - a) % TICK_MODULO > (now - b) % TICK_MODULO
  {
    var d := (now - b) % TICK_MODULO - (now - a) % TICK_MODULO;
    var k := (now - b) / TICK_MODULO - (now - a) / TICK_MODULO;
    assert a - b == d + k * TICK_MODULO;
    RemainderOf(a - b, d, k);
  }

  lemma RemainderOf(x: int, d: int, k: int)
    requires x == d + k * TICK_MODULO && -TICK_MODULO < d < TICK_MODULO
    ensures x % TICK_MODULO == if d >= 0 then d else d + TICK_MODULO
  {
    var r := if d >= 0 then d else d + TICK_MODULO;
    var m := if d >= 0 then k else k - 1;
    assert x == r + m * TICK_MODULO;
    assert x / TICK_MODULO == m;
  }

  /** The entry a beacon is recorded in: the one with its address, else an unused one, else the oldest. */
  ghost predicate IsSlot(list: seq<Neighbor>, bssid: int, i: int) {
    && 0 <= i < |list|
    && if exists j :: 0 <= j < |list| && list[j].addr == bssid
       then list[i].addr == bssid && forall j :: 0 <= j < i ==> list[j].addr != bssid
       else if exists j :: 0 <= j < |list| && list[j].addr == 0
       then list[i].addr == 0 && forall j :: 0 <= j < i ==> list[j].addr != 0
       else i == Oldest(list, |list|)
  }

  function Heard(n: Neighbor, b: Beacon, now: int): Neighbor {
    Neighbor(b.bssid, if b.hasChannel then b.channel else n.channel, b.erp,
             if |b.rates| > SUPP_RATES_MAX then b.rates[..SUPP_RATES_MAX]
             else b.rates + seq(SUPP_RATES_MAX - |b.rates|, _ => 0), b.ht, now)
  }

  /** The entry a beacon overwrites starts afresh unless it already is the sender's. */
  function Base(n: Neighbor, bssid: int): Neighbor {
    if n.addr == bssid || n.addr == 0 then n else UNUSED
  }

  /** A beacon keeps the table sound exactly when neither its address nor the clock reads zero, or when
      both do and an unused entry takes it: zero marks an unused entry. */
  lemma BeaconKeepsTable(list: seq<Neighbor>, num: int, b: Beacon, now: int, i: nat)
    requires |list| > 0 && TableOk(list) && num == Occupied(list) && IsSlot(list, b.bssid, i)
    ensures var after := list[i := Heard(Base(list[i], b.bssid), b, now)];
      var num' := if list[i].addr != 0 || b.bssid == 0 then num else num + 1;
      TableOk(after) && num' == Occupied(after)
      <==> (b.bssid != 0 && now != 0) || (b.bssid == 0 && now == 0 && num < |list|)
  {
    var n := Heard(Base(list[i], b.bssid), b, now);
    OccupiedUpdate(list, i, n);
    OccupiedAll(list);
    assert list[i := n][i] == n;
  }

  class Protection {
    var list: array<Neighbor>
    var numNeighborAp: int
    var olbc: bool
    var olbcHt: bool
    var ht: HtCounts
    var htOpMode: OpMode
    const b80211n: bool
    const secondary: bool
    const erpOn: bool
    const modeG: bool
    const channel: int
    const expiry: nat

    ghost predicate HtOk() reads this {
      htOpMode.reserved == 0 && (b80211n ==> htOpMode == HtMode(ht, olbcHt, secondary))
    }

    ghost predicate OverlapOk() reads this, list {
      && (erpOn && SomeLegacy(list[..], modeG, channel) ==> olbc)
      && (SomeNonHt(list[..]) ==> olbcHt)
    }

    ghost predicate Valid() reads this, list {
      && list.Length == TABLE_SIZE
      && TableOk(list[..]) && numNeighborAp == Occupied(list[..])
      && OverlapOk() && HtOk()
    }

    /** `neighbor_ap_list_init` on a fresh `ApInfo`. */
    constructor (b80211n: bool, secondary: bool, erpOn: bool, modeG: bool, channel: int, expiry: nat)
      ensures Valid() && fresh(list)
      ensures ht == NO_COUNTS && !olbc && !olbcHt
    {
      this.b80211n, this.secondary, this.erpOn, this.modeG := b80211n, secondary, erpOn, modeG;
      this.channel, this.expiry := channel, expiry;
      numNeighborAp, olbc, olbcHt, htOpMode := 0, false, false, OpMode(0, false, false, 0);
      ht := NO_COUNTS;
      list := new Neighbor[TABLE_SIZE](_ => UNUSED);
      new;
      NoneOccupied(list[..]);
    }

    /** `hostapd_ht_operation_update`. */
    method HtOperationUpdate() returns (changes: int)
      modifies this`htOpMode
      ensures b80211n ==> htOpMode == HtMode(ht, olbcHt, secondary).(reserved := old(htOpMode.reserved))
      ensures !b80211n ==> htOpMode == old(htOpMode)
      ensures changes > 0 <==> htOpMode != old(htOpMode)
    {
      changes := 0;
      if !b80211n { return; }
      if !htOpMode.nonGf && ht.noGf != 0 {
        htOpMode := htOpMode.(nonGf := true);
        changes := changes + 1;
      } else if htOpMode.nonGf && ht.noGf == 0 {
        htOpMode := htOpMode.(nonGf := false);
        changes := changes + 1;
      }
      if !htOpMode.obssNonHt && (ht.noHt != 0 || olbcHt) {
        htOpMode := htOpMode.(obssNonHt := true);
        changes := changes + 1;
      } else if htOpMode.obssNonHt && ht.noHt == 0 && !olbcHt {
        htOpMode := htOpMode.(obssNonHt := false);
        changes := changes + 1;
      }
      var newOpMode :=
        if ht.noHt != 0 then 3 else if secondary && ht.ht20 != 0 then 2 else if olbcHt then 1 else 0;
      if htOpMode.protection != newOpMode {
        htOpMode := htOpMode.(protection := newOpMode);
        changes := changes + 1;
      }
    }

    /** New HT counts take effect on the operation mode. */
    method SetHtCounts(n: HtCounts)
      requires Valid()
      modifies this`ht, this`htOpMode
      ensures Valid() && ht == n
    {
      ht := n;
      var changes := HtOperationUpdate();
    }

    /** `ap_get_ap`. */
    method Find(addr: int) returns (i: int)
      ensures -1 <= i < list.Length
      ensures i == -1 ==> forall j :: 0 <= j < list.Length ==> list[j].addr != addr
      ensures i >= 0 ==> list[i].addr == addr && forall j :: 0 <= j < i ==> list[j].addr != addr
    {
      i := 0;
      while i < list.Length
        invariant 0 <= i <= list.Length
        invariant forall j :: 0 <= j < i ==> list[j].addr != addr
      {
        if list[i].addr == addr { return; }
        i := i + 1;
      }
      i := -1;
    }

    /** `ap_free_ap`. */
    method FreeAp(i: nat)
      requires i < list.Length
      modifies list, this`numNeighborAp
      ensures list[..] == old(list[..])[i := UNUSED] && numNeighborAp == old(numNeighborAp) - 1
    {
      list[i] := UNUSED;
      numNeighborAp := numNeighborAp - 1;
    }

    /** The search of `ap_ap_add` for the entry heard longest ago. */
    method FindOldest() returns (i: nat)
      requires list.Length >= 1
      ensures i == Oldest(list[..], list.Length) < list.Length
    {
      i := 0;
      var k := 1;
      while k < list.Length
        invariant 1 <= k <= list.Length && i < k
        invariant i == Oldest(list[..], k)
      {
        if TimeBefore(list[k].lastBeacon, list[i].lastBeacon) { i := k; }
        k := k + 1;
      }
    }

    /** `ap_ap_add`, up to the copy of the address. */
    method ApAdd() returns (i: nat)
      requires list.Length == TABLE_SIZE && numNeighborAp == Occupied(list[..])
      modifies list, this`numNeighborAp
      ensures i < list.Length
      ensures list[..] == old(list[..])[i := if old(list[i].addr) == 0 then old(list[i]) else UNUSED]
      ensures if old(numNeighborAp) < TABLE_SIZE
        then old(list[i].addr) == 0 && forall j :: 0 <= j < i ==> old(list[j].addr) != 0
        else i == Oldest(old(list[..]), TABLE_SIZE) && old(list[i].addr) != 0
      ensures numNeighborAp == if old(numNeighborAp) < TABLE_SIZE then old(numNeighborAp) + 1 else old(numNeighborAp)
    {
      OccupiedAll(list[..]);
      numNeighborAp := numNeighborAp + 1;
      if numNeighborAp > TABLE_SIZE {
        i := FindOldest();
        FreeAp(i);
      } else {
        var k := Find(0);
        i := k;
        assert list[..] == list[..][i := list[i]];
      }
    }

    /** The table part of `neighbor_ap_list_process_beacon`. */
    method RecordBeacon(b: Beacon, now: int) returns (k: nat)
      requires Valid()
      modifies list, this`numNeighborAp
      ensures k < list.Length && IsSlot(old(list[..]), b.bssid, k)
      ensures list[..] == old(list[..])[k := Heard(Base(old(list[k]), b.bssid), b, now)]
      ensures numNeighborAp == if old(list[k].addr) != 0 || b.bssid == 0 then old(numNeighborAp) else old(numNeighborAp) + 1
    {
      hide Heard;
      hide OverlapOk;
      hide HtOk;
      hide TableOk;
      hide Occupied;
      ghost var was := list[..];
      OccupiedAll(was);
      var i := Find(b.bssid);
      if i < 0 { i := ApAdd(); }
      k := i;
      assert list[k] == Base(was[k], b.bssid);
      list[k] := Heard(list[k], b, now);
    }

    /** `neighbor_ap_list_process_beacon`: the beacon is recorded in its entry, the overlap conditions take
        it into account, and the invariant survives exactly when the table does. */
    method ProcessBeacon(b: Beacon, now: int) returns (ghost slot: nat)
      requires Valid()
      modifies list, this`numNeighborAp, this`olbc, this`olbcHt, this`htOpMode
      ensures slot < list.Length && IsSlot(old(list[..]), b.bssid, slot)
      ensures list[..] == old(list[..])[slot := Heard(Base(old(list[slot]), b.bssid), b, now)]
      ensures numNeighborAp == if old(list[slot].addr) != 0 || b.bssid == 0 then old(numNeighborAp) else old(numNeighborAp) + 1
      ensures olbc <==> old(olbc) || (erpOn && Legacy(list[slot], modeG, channel))
      ensures olbcHt <==> old(olbcHt) || !b.ht
      ensures Valid() <==> (b.bssid != 0 && now != 0) || (b.bssid == 0 && now == 0 && old(numNeighborAp) < TABLE_SIZE)
    {
      hide Legacy;
      hide IsSlot;
      hide TableOk;
      hide Occupied;
      hide SomeLegacy;
      hide SomeNonHt;
      ghost var was := list[..];
      var k := RecordBeacon(b, now);
      slot := k;
      BeaconKeepsTable(was, old(numNeighborAp), b, now, k);
      KeepsOverlap(was, k, list[k], modeG, channel);
      if erpOn && !olbc && Legacy(list[k], modeG, channel) { olbc := true; }
      if !olbcHt && !list[k].htSupport {
        olbcHt := true;
        var changes := HtOperationUpdate();
      }
    }

    /** The loop of `ap_list_timer`. */
    method Sweep(now: int) returns (someOlbc: bool, someOlbcHt: bool)
      requires list.Length == TABLE_SIZE && numNeighborAp == Occupied(list[..]) && TableOk(list[..])
      modifies list, this`numNeighborAp
      ensures forall i :: 0 <= i < list.Length ==> list[i] == Swept(old(list[i]), now, expiry)
      ensures numNeighborAp == Occupied(list[..])
      ensures someOlbc ==> SomeLegacy(list[..], modeG, channel)
      ensures someOlbcHt ==> SomeNonHt(list[..])
      ensures olbc || olbcHt ==> (SomeLegacy(list[..], modeG, channel) ==> someOlbc) && (SomeNonHt(list[..]) ==> someOlbcHt)
    {
      hide Legacy;
      hide Occupied;
      hide SomeLegacy;
      hide SomeNonHt;
      hide TimeBefore;
      someOlbc, someOlbcHt := false, false;
      NoneYet(modeG, channel);
      var i := 0;
      assert list[..0] == [];
      while i < list.Length
        invariant 0 <= i <= list.Length == TABLE_SIZE
        invariant forall j :: 0 <= j < i ==> list[j] == Swept(old(list[j]), now, expiry)
        invariant forall j :: i <= j < list.Length ==> list[j] == old(list[j])
        invariant numNeighborAp == Occupied(list[..])
        invariant someOlbc ==> SomeLegacy(list[..i], modeG, channel)
        invariant someOlbcHt ==> SomeNonHt(list[..i])
        invariant olbc || olbcHt ==> (SomeLegacy(list[..i], modeG, channel) ==> someOlbc) && (SomeNonHt(list[..i]) ==> someOlbcHt)
      {
        ghost var before := list[..i];
        if Stored(list[i]) {
          if TimeBefore(list[i].lastBeacon + expiry, now) {
            OccupiedUpdate(list[..], i, UNUSED);
            FreeAp(i);
          } else if (olbc || olbcHt) && !(someOlbc && someOlbcHt) {
            if Legacy(list[i], modeG, channel) { someOlbc := true; }
            if !list[i].htSupport { someOlbcHt := true; }
          }
        }
        OneMore(before, list[i], modeG, channel);
        assert list[..i + 1] == before + [list[i]];
        i := i + 1;
      }
      assert list[..i] == list[..];
    }

    /** `ap_list_timer`: entries not heard for too long are freed, and the overlap conditions become
        exact. */
    method ListTimer(now: int)
      requires Valid()
      modifies list, this`numNeighborAp, this`olbc, this`olbcHt, this`htOpMode
      ensures Valid()
      ensures forall i :: 0 <= i < list.Length ==> list[i] == Swept(old(list[i]), now, expiry)
      ensures erpOn ==> (olbc <==> SomeLegacy(list[..], modeG, channel))
      ensures !erpOn ==> olbc == old(olbc)
      ensures olbcHt <==> SomeNonHt(list[..])
    {
      hide SomeLegacy;
      hide SomeNonHt;
      hide Occupied;
      hide TableOk;
      hide Swept;
      var someOlbc, someOlbcHt := Sweep(now);
      SweptKeepsTable(old(list[..]), list[..], now, expiry, modeG, channel);
      if erpOn && !someOlbc && olbc { olbc := false; }
      if !someOlbcHt && olbcHt {
        olbcHt := false;
        var changes := HtOperationUpdate();
      }
    }
  }

  lemma NoneYet(modeG: bool, channel: int)
    ensures !SomeLegacy([], modeG, channel) && !SomeNonHt([])
  {
  }

  function Swept(n: Neighbor, now: int, expiry: nat): Neighbor {
    if Stored(n) && TimeBefore(n.lastBeacon + expiry, now) then UNUSED else n
  }

  /** On a clock that does not wrap, a neighbour is forgotten exactly when it was last heard longer ago than
      the expiry. */
  lemma SweptMeaning(n: Neighbor, t: int, s: int, expiry: nat)
    requires Stored(n) && n.lastBeacon == s % TICK_MODULO && s <= t
    requires t - s <= TICK_MODULO / 2 && expiry < TICK_MODULO / 2
    ensures Swept(n, t % TICK_MODULO, expiry) == if t - s > expiry then UNUSED else n
  {
    DeadlineMeaning(t, s, expiry);
  }

  /** Nothing becomes legacy, and nothing is doubled, by freeing entries. */
  lemma SweptKeepsTable(was: seq<Neighbor>, list: seq<Neighbor>, now: int, expiry: nat, modeG: bool, channel: int)
    requires TableOk(was) && |list| == |was|
    requires forall i :: 0 <= i < |list| ==> list[i] == Swept(was[i], now, expiry)
    ensures TableOk(list)
    ensures SomeLegacy(list, modeG, channel) ==> SomeLegacy(was, modeG, channel)
    ensures SomeNonHt(list) ==> SomeNonHt(was)
  {
    hide Legacy;
    hide TimeBefore;
    assert forall i :: 0 <= i < |list| && Stored(list[i]) ==> list[i] == was[i];
  }

  lemma OneMore(before: seq<Neighbor>, n: Neighbor, modeG: bool, channel: int)
    ensures SomeLegacy(before + [n], modeG, channel) <==>
            SomeLegacy(before, modeG, channel) || (Stored(n) && Legacy(n, modeG, channel))
    ensures SomeNonHt(before + [n]) <==> SomeNonHt(before) || (Stored(n) && !n.htSupport)
  {
    hide Legacy;
    var all := before + [n];
    assert all[|before|] == n;
    assert forall i :: 0 <= i < |before| ==> all[i] == before[i];
  }

  lemma KeepsOverlap(was: seq<Neighbor>, k: nat, n: Neighbor, modeG: bool, channel: int)
    requires k < |was|
    ensures SomeLegacy(was[k := n], modeG, channel) ==> SomeLegacy(was, modeG, channel) || Legacy(n, modeG, channel)
    ensures SomeNonHt(was[k := n]) ==> SomeNonHt(was) || !n.htSupport
  {
    hide Legacy;
    var after := was[k := n];
    assert forall i :: 0 <= i < |was| && i != k ==> after[i] == was[i];
  }
}
