/** Disabling direct-to-core on every bus at the start of a session and restoring it at the end, once per socket master. */
module Direct2Core {
  import opened Bits

  const VENDOR_ID_INTEL: nat := 0x8086
  const HA_D2C_DID: nat := 0x3CA0
  const QPILL0_D2C_DID: nat := 0x3C80
  const QPILL1_D2C_DID: nat := 0x3C90
  const D2C_BITMASK: nat := 2
  const HA_DEVICES: set<nat> := {HA_D2C_DID}
  const QPI_DEVICES: set<nat> := {QPILL0_D2C_DID, QPILL1_D2C_DID}

  /** Whether the identification word read from a bus names one of the devices. */
  predicate Hosts(id: nat, devices: set<nat>) {
    BitAnd(id, 0xffff) == VENDOR_ID_INTEL && Shr(id, 16) in devices
  }

  /** The lower half of the word is the vendor, the upper half the device. */
  lemma HostsIs(did: nat, vendor: nat)
    requires vendor <= 0xffff
    ensures Hosts(did * 0x1_0000 + vendor, HA_DEVICES) <==> vendor == 0x8086 && did == 0x3CA0
    ensures Hosts(did * 0x1_0000 + vendor, QPI_DEVICES) <==> vendor == 0x8086 && (did == 0x3C80 || did == 0x3C90)
  {
    Halves(did, vendor);
  }

  predicate Present(ids: seq<nat>, devices: set<nat>, i: nat) { i < |ids| && Hosts(ids[i], devices) }

  // ----- What a master's calls do -----

  /** The registers after disabling: the bit set wherever the device is present. */
  function Disabled(ids: seq<nat>, devices: set<nat>, regs: seq<nat>): (r: seq<nat>)
    requires |regs| == |ids|
    ensures |r| == |ids|
    ensures forall i :: 0 <= i < |ids| ==> r[i] == if Present(ids, devices, i) then BitOr(regs[i], D2C_BITMASK) else regs[i]
  {
    seq(|ids|, i requires 0 <= i < |ids| => if Present(ids, devices, i) then BitOr(regs[i], D2C_BITMASK) else regs[i])
  }

  /** Where the device is present disabling sets bit 1 and leaves all other bits; elsewhere it leaves the whole register. */
  lemma DisabledBits(ids: seq<nat>, devices: set<nat>, regs: seq<nat>, i: nat, k: nat)
    requires |regs| == |ids| && i < |ids|
    ensures Bit(Disabled(ids, devices, regs)[i], k) <==> (k == 1 && Hosts(ids[i], devices)) || Bit(regs[i], k)
  {
    assert Pow2(1) == 2 * Pow2(0) == D2C_BITMASK;
    SetsOneBit(regs[i], 1, k);
  }

  /** `from` where the device is present, `other` elsewhere: what saving and restoring both do. */
  function Merge(ids: seq<nat>, devices: set<nat>, from: seq<nat>, other: seq<nat>): (r: seq<nat>)
    requires |from| == |other| == |ids|
    ensures |r| == |ids|
    ensures forall i :: 0 <= i < |ids| ==> r[i] == if Present(ids, devices, i) then from[i] else other[i]
  {
    seq(|ids|, i requires 0 <= i < |ids| => if Present(ids, devices, i) then from[i] else other[i])
  }

  /** The registers of all buses, shared, and each cpu's restore buffer. */
  datatype State = State(regs: seq<nat>, rows: map<nat, seq<nat>>)

  ghost predicate StateOk(ids: seq<nat>, s: State) {
    |s.regs| == |ids| && forall c :: c in s.rows ==> |s.rows[c]| == |ids|
  }

  function Disable(ids: seq<nat>, devices: set<nat>, s: State, c: nat): (r: State)
    requires StateOk(ids, s) && c in s.rows
    ensures StateOk(ids, r) && r.rows.Keys == s.rows.Keys
  {
    State(Disabled(ids, devices, s.regs), s.rows[c := Merge(ids, devices, s.regs, s.rows[c])])
  }

  function Restore(ids: seq<nat>, devices: set<nat>, s: State, c: nat): (r: State)
    requires StateOk(ids, s) && c in s.rows
    ensures StateOk(ids, r) && r.rows == s.rows
  {
    s.(regs := Merge(ids, devices, s.rows[c], s.regs))
  }

  function DisableAll(ids: seq<nat>, devices: set<nat>, s: State, masters: seq<nat>): (r: State)
    requires StateOk(ids, s) && forall c :: c in masters ==> c in s.rows
    ensures StateOk(ids, r) && r.rows.Keys == s.rows.Keys
    decreases |masters|
  {
    if masters == [] then s else
      Disable(ids, devices, DisableAll(ids, devices, s, masters[..|masters| - 1]), masters[|masters| - 1])
  }

  function RestoreAll(ids: seq<nat>, devices: set<nat>, s: State, masters: seq<nat>): (r: State)
    requires StateOk(ids, s) && forall c :: c in masters ==> c in s.rows
    ensures StateOk(ids, r) && r.rows == s.rows
    decreases |masters|
  {
    if masters == [] then s else
      Restore(ids, devices, RestoreAll(ids, devices, s, masters[..|masters| - 1]), masters[|masters| - 1])
  }

  /** Entry k is the last of the list for its master. */
  predicate LastOf(masters: seq<nat>, k: nat) {
    k < |masters| && forall j :: k < j < |masters| ==> masters[j] != masters[k]
  }

  /**
    * After all initializations, a master's restore buffer holds what its own last one found: the original values if
    * that was the very first of all, else the changed ones.
    */
  lemma {:induction false} AfterDisabling(ids: seq<nat>, devices: set<nat>, s: State, masters: seq<nat>, i: nat, k: nat)
    requires StateOk(ids, s) && (forall c :: c in masters ==> c in s.rows)
    requires Present(ids, devices, i) && LastOf(masters, k)
    ensures var r := DisableAll(ids, devices, s, masters);
            && r.regs[i] == BitOr(s.regs[i], D2C_BITMASK)
            && r.rows[masters[k]][i] == if k == 0 then s.regs[i] else BitOr(s.regs[i], D2C_BITMASK)
    decreases |masters|
  {
    var before := masters[..|masters| - 1];
    if k < |before| {
      AfterDisabling(ids, devices, s, before, i, k);
      OrIdempotent(s.regs[i], D2C_BITMASK);
    } else if before != [] {
      AfterDisabling(ids, devices, s, before, i, |before| - 1);
      OrIdempotent(s.regs[i], D2C_BITMASK);
    }
  }

  /** Disabling and restoring leave every other register of the buses alone. */
  lemma {:induction false} OthersUntouched(ids: seq<nat>, devices: set<nat>, s: State, masters: seq<nat>, i: nat)
    requires StateOk(ids, s) && (forall c :: c in masters ==> c in s.rows)
    requires i < |ids| && !Present(ids, devices, i)
    ensures DisableAll(ids, devices, s, masters).regs[i] == s.regs[i]
    ensures RestoreAll(ids, devices, s, masters).regs[i] == s.regs[i]
    decreases |masters|
  {
    if masters != [] {
      OthersUntouched(ids, devices, s, masters[..|masters| - 1], i);
    }
  }

  /** The last master to restore decides. */
  lemma LastRestores(ids: seq<nat>, devices: set<nat>, s: State, masters: seq<nat>, i: nat)
    requires StateOk(ids, s) && (forall c :: c in masters ==> c in s.rows) && masters != []
    requires Present(ids, devices, i)
    ensures RestoreAll(ids, devices, s, masters).regs[i] == s.rows[masters[|masters| - 1]][i]
  {}

  /** Initializations in one order, a master possibly more than once; clean-ups in another. */
  function Session(ids: seq<nat>, devices: set<nat>, s: State, started: seq<nat>, ended: seq<nat>): (r: State)
    requires StateOk(ids, s) && (forall c :: c in started ==> c in s.rows) && (forall c :: c in ended ==> c in started)
    ensures StateOk(ids, r)
  {
    RestoreAll(ids, devices, DisableAll(ids, devices, s, started), ended)
  }

  ghost predicate BitsSet(ids: seq<nat>, devices: set<nat>, regs: seq<nat>)
    requires |regs| == |ids|
  {
    forall i :: 0 <= i < |ids| && Present(ids, devices, i) ==> BitOr(regs[i], D2C_BITMASK) == regs[i]
  }

  lemma LastOccurrence(masters: seq<nat>, c: nat) returns (k: nat)
    requires c in masters
    ensures LastOf(masters, k) && masters[k] == c
  {
    k := |masters| - 1;
    while masters[k] != c
      invariant k < |masters| && forall j :: k < j < |masters| ==> masters[j] != c
      decreases k
    {
      k := k - 1;
    }
  }

  /** The session leaves the original values when the last cleaner's last initialization was the first of all. */
  lemma SessionLeaves(ids: seq<nat>, devices: set<nat>, s: State, started: seq<nat>, ended: seq<nat>, k: nat)
    requires StateOk(ids, s) && (forall c :: c in started ==> c in s.rows) && (forall c :: c in ended ==> c in started)
    requires ended != [] && LastOf(started, k) && started[k] == ended[|ended| - 1]
    ensures Session(ids, devices, s, started, ended).regs == if k == 0 then s.regs else Disabled(ids, devices, s.regs)
  {
    var mid := DisableAll(ids, devices, s, started);
    var r := Session(ids, devices, s, started, ended);
    forall i | 0 <= i < |ids|
      ensures r.regs[i] == if Present(ids, devices, i) && k != 0 then BitOr(s.regs[i], D2C_BITMASK) else s.regs[i]
    {
      if Present(ids, devices, i) {
        AfterDisabling(ids, devices, s, started, i, k);
        LastRestores(ids, devices, mid, ended, i);
      } else {
        OthersUntouched(ids, devices, s, started, i);
        OthersUntouched(ids, devices, mid, ended, i);
      }
    }
  }

  lemma SetAlready(ids: seq<nat>, devices: set<nat>, regs: seq<nat>)
    requires |regs| == |ids|
    ensures Disabled(ids, devices, regs) == regs <==> BitsSet(ids, devices, regs)
  {
    if Disabled(ids, devices, regs) == regs {
      forall i | 0 <= i < |ids| && Present(ids, devices, i) ensures BitOr(regs[i], D2C_BITMASK) == regs[i] {
        assert Disabled(ids, devices, regs)[i] == regs[i];
      }
    }
  }

  /**
    * The registers of all buses are back exactly when the master that cleans up last initialized first of all and
    * never again, or the bits were set to begin with.
    */
  lemma RestoredExactly(ids: seq<nat>, devices: set<nat>, s: State, started: seq<nat>, ended: seq<nat>)
    requires StateOk(ids, s) && (forall c :: c in started ==> c in s.rows) && (forall c :: c in ended ==> c in started)
    requires ended != []
    ensures Session(ids, devices, s, started, ended).regs == s.regs <==>
            || (started[0] == ended[|ended| - 1] && ended[|ended| - 1] !in started[1..])
            || BitsSet(ids, devices, s.regs)
  {
    var k := LastOccurrence(started, ended[|ended| - 1]);
    SessionLeaves(ids, devices, s, started, ended, k);
    SetAlready(ids, devices, s.regs);
    if k > 0 {
      assert started[1..][k - 1] == ended[|ended| - 1];
    }
  }

  /** With a single socket master the registers come back exactly when it initializes once, or the bits were set. */
  lemma SingleMasterRestores(ids: seq<nat>, devices: set<nat>, s: State, started: seq<nat>, master: nat)
    requires StateOk(ids, s) && master in s.rows && master in started && forall c :: c in started ==> c == master
    ensures Session(ids, devices, s, started, [master]).regs == s.regs <==> |started| == 1 || BitsSet(ids, devices, s.regs)
  {
    RestoredExactly(ids, devices, s, started, [master]);
    assert started[0] in started;
    if |started| > 1 {
      assert started[1..][0] == started[1] && started[1] in started;
    }
  }

  /** A master that initializes twice before the session starts leaves the bits set: its second save forgets the values. */
  lemma TwiceInitialized(ids: seq<nat>, devices: set<nat>, s: State, master: nat)
    requires StateOk(ids, s) && master in s.rows
    ensures Session(ids, devices, s, [master, master], [master]).regs == Disabled(ids, devices, s.regs)
  {
    SessionLeaves(ids, devices, s, [master, master], [master], 1);
  }

  // ----- The loops over the buses -----

  /** The registers of `devs` devices on each of `buses` buses, device by device. */
  class Family {
    const buses: nat
    const ids: seq<nat>
    const devices: set<nat>
    const regs: array<nat>

    constructor (buses: nat, devs: nat, ids: seq<nat>, devices: set<nat>, regs: array<nat>)
      requires |ids| == regs.Length == devs * buses
      ensures Valid(devs) && this.buses == buses && this.ids == ids && this.devices == devices && this.regs == regs
    {
      this.buses := buses;
      this.ids := ids;
      this.devices := devices;
      this.regs := regs;
    }

    ghost predicate Valid(devs: nat) { |ids| == regs.Length == devs * buses }

    /** First pass: saves the values of all buses. */
    method Save(devs: nat, row: array<nat>)
      requires Valid(devs) && row.Length == |ids| && row != regs
      modifies row
      ensures row[..] == Merge(ids, devices, regs[..], old(row[..]))
    {
      var base := 0;
      for dev := 0 to devs
        invariant base == dev * buses
        invariant SavedBelow(row, old(row[..]), base)
      {
        StepWithin(dev, devs, buses);
        for bus := 0 to buses
          invariant SavedBelow(row, old(row[..]), base + bus)
        {
          var i := base + bus;
          if Hosts(ids[i], devices) {
            row[i] := regs[i];
          }
        }
        base := base + buses;
      }
    }

    ghost predicate SavedBelow(row: array<nat>, before: seq<nat>, n: nat)
      requires row.Length == |ids| == regs.Length == |before|
      reads row, regs
    {
      && n <= |ids|
      && (forall i :: 0 <= i < n ==> row[i] == if Present(ids, devices, i) then regs[i] else before[i])
      && forall i :: n <= i < |ids| ==> row[i] == before[i]
    }

    /** Second pass: sets the bit on all buses. */
    method SetBits(devs: nat)
      requires Valid(devs)
      modifies regs
      ensures regs[..] == Disabled(ids, devices, old(regs[..]))
    {
      var base := 0;
      for dev := 0 to devs
        invariant base == dev * buses
        invariant SetBelow(old(regs[..]), base)
      {
        StepWithin(dev, devs, buses);
        for bus := 0 to buses
          invariant SetBelow(old(regs[..]), base + bus)
        {
          SetBit(base + bus, old(regs[..]));
        }
        base := base + buses;
      }
    }

    method SetBit(i: nat, ghost before: seq<nat>)
      requires |ids| == regs.Length == |before| && i < |ids| && SetBelow(before, i)
      modifies regs
      ensures SetBelow(before, i + 1)
    {
      if Hosts(ids[i], devices) {
        regs[i] := BitOr(regs[i], D2C_BITMASK);
      }
    }

    ghost predicate SetBelow(before: seq<nat>, n: nat)
      requires |ids| == regs.Length == |before|
      reads regs
    {
      && n <= |ids|
      && (forall i :: 0 <= i < n ==> regs[i] == if Present(ids, devices, i) then BitOr(before[i], D2C_BITMASK) else before[i])
      && forall i :: n <= i < |ids| ==> regs[i] == before[i]
    }

    /** The two passes of one master's initialization. */
    method SaveAndSet(devs: nat, row: array<nat>)
      requires Valid(devs) && row.Length == |ids| && row != regs
      modifies row, regs
      ensures row[..] == Merge(ids, devices, old(regs[..]), old(row[..]))
      ensures regs[..] == Disabled(ids, devices, old(regs[..]))
    {
      Save(devs, row);
      SetBits(devs);
    }

    /** One master's clean-up. */
    method WriteBack(devs: nat, row: array<nat>)
      requires Valid(devs) && row.Length == |ids| && row != regs
      modifies regs
      ensures regs[..] == Merge(ids, devices, row[..], old(regs[..]))
    {
      var base := 0;
      for dev := 0 to devs
        invariant base == dev * buses
        invariant RestoredBelow(row, old(regs[..]), base)
      {
        StepWithin(dev, devs, buses);
        for bus := 0 to buses
          invariant RestoredBelow(row, old(regs[..]), base + bus)
        {
          var i := base + bus;
          if Hosts(ids[i], devices) {
            regs[i] := row[i];
          }
        }
        base := base + buses;
      }
    }

    ghost predicate RestoredBelow(row: array<nat>, before: seq<nat>, n: nat)
      requires row.Length == |ids| == regs.Length == |before|
      reads row, regs
    {
      && n <= |ids|
      && (forall i :: 0 <= i < n ==> regs[i] == if Present(ids, devices, i) then row[i] else before[i])
      && forall i :: n <= i < |ids| ==> regs[i] == before[i]
    }
  }

  /** One master's initialization: the home agents on every bus, then the two QPI links on every bus. */
  method DisableDirect2core(ha: Family, qpi: Family, haRow: array<nat>, qpiRow: array<nat>)
    requires ha.Valid(1) && ha.devices == HA_DEVICES && haRow.Length == |ha.ids|
    requires qpi.Valid(2) && qpi.devices == QPI_DEVICES && qpiRow.Length == |qpi.ids|
    requires |{ha.regs, qpi.regs, haRow, qpiRow}| == 4
    modifies ha.regs, qpi.regs, haRow, qpiRow
    ensures haRow[..] == Merge(ha.ids, HA_DEVICES, old(ha.regs[..]), old(haRow[..]))
    ensures ha.regs[..] == Disabled(ha.ids, HA_DEVICES, old(ha.regs[..]))
    ensures qpiRow[..] == Merge(qpi.ids, QPI_DEVICES, old(qpi.regs[..]), old(qpiRow[..]))
    ensures qpi.regs[..] == Disabled(qpi.ids, QPI_DEVICES, old(qpi.regs[..]))
  {
    ha.SaveAndSet(1, haRow);
    qpi.SaveAndSet(2, qpiRow);
  }

  /** One master's clean-up of both. */
  method RestoreDirect2core(ha: Family, qpi: Family, haRow: array<nat>, qpiRow: array<nat>)
    requires ha.Valid(1) && ha.devices == HA_DEVICES && haRow.Length == |ha.ids|
    requires qpi.Valid(2) && qpi.devices == QPI_DEVICES && qpiRow.Length == |qpi.ids|
    requires |{ha.regs, qpi.regs, haRow, qpiRow}| == 4
    modifies ha.regs, qpi.regs
    ensures ha.regs[..] == Merge(ha.ids, HA_DEVICES, haRow[..], old(ha.regs[..]))
    ensures qpi.regs[..] == Merge(qpi.ids, QPI_DEVICES, qpiRow[..], old(qpi.regs[..]))
  {
    ha.WriteBack(1, haRow);
    qpi.WriteBack(2, qpiRow);
  }

  lemma StepWithin(dev: nat, devs: nat, buses: nat)
    requires dev < devs
    ensures (dev + 1) * buses == dev * buses + buses <= devs * buses
  {
    assert (devs - dev - 1) * buses >= 0;
    assert (devs - dev - 1) * buses == devs * buses - dev * buses - buses;
  }
}
