/** Attaching and detaching a PCI card: can_attach and can_detach of esd/src/esdcan_pci.c with the loop of
    can_detach_common (esd/src/esdcan.c) that unmaps the spaces, on the ledger of CardAttach.

    The board has MSI and bus mastering (esd/src/boardrc.h). Which card type fits the device, and what the calls
    return that may fail, comes from outside. */
module PciAttach {
  import opened CardAttach
  import opened Basics

  const ENODEV: int := 19
  const NO_SPACE: nat := 0xFFFF_FFFF

  /** One PCI resource: its flags, where it starts and how long it is. */
  datatype Bar = Bar(mem: bool, io: bool, start: nat, len: nat)

  /** Memory for the card, pci_enable_device, ioremap (0 if it fails), request_region and pci_enable_msi. */
  datatype PciEnv = PciEnv(malloc: bool, enabled: bool, remap: nat -> nat, reserved: nat -> bool, msi: bool, common: Env)

  class PciDevice {
    const bars: seq<Bar>
    const irq: nat
    var master: bool
    var data: Card?
  }

  // ---------------------------------------------------------------- the spaces of a card

  /** The smaller of what the board layer and the configuration space say; I/O spaces are marked by an odd number. */
  function Wanted(space: nat, bar: Bar): nat {
    var range := if bar.mem then space else if bar.io then space - space % 2 else 0;
    if range > bar.len then bar.len else range
  }

  /** The board layer and the configuration space disagree on the kind. */
  predicate Conflict(space: nat, bar: Bar) {
    if bar.mem then space % 2 == 1 else bar.io && space % 2 == 0 && space != 0
  }

  predicate SlotOk(space: nat, bar: Bar, env: PciEnv, j: nat) {
    && !Conflict(space, bar)
    && (Wanted(space, bar) > 0 ==> if bar.mem then env.remap(j) != 0 else env.reserved(j))
  }

  /** A space is had: the two sides agree on its kind, in that the board layer's number is even for a memory space and
      odd or 0 for an I/O space; and the mapping or the region is granted unless one side says that it has no length.
      What the configuration space calls neither is left alone. */
  predicate SpaceIsHad(space: nat, bar: Bar, env: PciEnv, j: nat) {
    && (bar.mem ==> space % 2 == 0 && (space == 0 || bar.len == 0 || env.remap(j) != 0))
    && (!bar.mem && bar.io ==> (space == 0 || space % 2 == 1) && (space <= 1 || bar.len == 0 || env.reserved(j)))
  }

  /** Why it is not had: only a refused I/O region counts as busy. */
  function SpaceResult(space: nat, bar: Bar, env: PciEnv, j: nat): int {
    if SpaceIsHad(space, bar, env, j) then 0 else if !bar.mem && space % 2 == 1 then EBUSY else ENOMEM
  }

  lemma SlotOkIff(space: nat, bar: Bar, env: PciEnv, j: nat)
    ensures SlotOk(space, bar, env, j) <==> SpaceIsHad(space, bar, env, j)
  {
  }

  /** The recorded length: the smaller of what the two sides say, the mark of an I/O space taken off. */
  lemma RecordedLength(space: nat, bar: Bar, env: PciEnv, j: nat)
    requires SpaceIsHad(space, bar, env, j)
    ensures var range := SlotFor(space, bar, env, j).range;
            && (bar.mem ==> range <= bar.len && range <= space && (range == bar.len || range == space))
            && (!bar.mem && bar.io && space > 0 ==>
                  range <= bar.len && range <= space - 1 && (range == bar.len || range == space - 1))
            && (!bar.mem && (!bar.io || space == 0) ==> range == 0)
    ensures SlotFor(space, bar, env, j).range > 0 ==>
              SlotFor(space, bar, env, j).base == if bar.mem then env.remap(j) else bar.start
  {
  }

  /** The record of a space that has been dealt with. */
  function SlotFor(space: nat, bar: Bar, env: PciEnv, j: nat): Space {
    var range := Wanted(space, bar);
    if range == 0 then Space(0, 0) else Space(if bar.mem then env.remap(j) else bar.start, range)
  }

  predicate SpaceHeld(crd: nat, bars: seq<Bar>, space: seq<Space>, r: Resource) {
    r.crd == crd &&
    match r
    case Mapping(_, j, base) =>
      j < |space| && j < |bars| && bars[j].mem && space[j].range > 0 && space[j].base == base
    case IoRegion(_, j, start, len) =>
      j < |space| && j < |bars| && !bars[j].mem && bars[j].io && space[j].range > 0 && space[j] == Space(start, len)
    case _ => false
  }

  /** The ledger is `base`, where the card has no space, and the card's spaces. */
  ghost predicate OwnsSpaces(held: set<Resource>, base: set<Resource>, crd: nat, bars: seq<Bar>, space: seq<Space>) {
    && (forall r | r in base :: r.crd == crd ==> !r.Mapping? && !r.IoRegion?)
    && forall r :: r in held <==> r in base || SpaceHeld(crd, bars, space, r)
  }

  function SpaceResource(crd: nat, bar: Bar, j: nat, sp: Space): Resource {
    if bar.mem then Mapping(crd, j, sp.base) else IoRegion(crd, j, sp.base, sp.range)
  }

  lemma SpaceIsNext(held: set<Resource>, base: set<Resource>, crd: nat, bars: seq<Bar>, space: seq<Space>, sp: Space)
    requires OwnsSpaces(held, base, crd, bars, space) && |space| < |bars|
    ensures var j := |space|;
            if sp.range > 0 && (bars[j].mem || bars[j].io) then
              var r := SpaceResource(crd, bars[j], j, sp);
              r !in held && OwnsSpaces(held + {r}, base, crd, bars, space + [sp])
            else OwnsSpaces(held, base, crd, bars, space + [sp])
  {
  }

  /** How many spaces are dealt with before the table ends or something fails. */
  function Reached(ident: CardIdent, bars: seq<Bar>, env: PciEnv, j: nat): (n: nat)
    requires |ident.spaces| == |bars| == SLOTS && j <= SLOTS
    ensures j <= n <= SLOTS
    ensures forall k: nat | j <= k < n :: ident.spaces[k] != NO_SPACE && SlotOk(ident.spaces[k], bars[k], env, k)
    ensures n < SLOTS && ident.spaces[n] != NO_SPACE ==> !SlotOk(ident.spaces[n], bars[n], env, n)
    decreases SLOTS - j
  {
    if j < SLOTS && ident.spaces[j] != NO_SPACE && SlotOk(ident.spaces[j], bars[j], env, j)
    then Reached(ident, bars, env, j + 1) else j
  }

  /** The record of the card after `n` spaces: slots not reached have no base. */
  ghost predicate Mapped(ident: CardIdent, bars: seq<Bar>, env: PciEnv, space: seq<Space>, n: nat) {
    && |space| == |bars| == |ident.spaces| == SLOTS && n <= SLOTS
    && (forall k: nat | k < n :: space[k] == SlotFor(ident.spaces[k], bars[k], env, k)
                                  && SlotOk(ident.spaces[k], bars[k], env, k))
    && (forall k | n <= k < SLOTS :: space[k].base == 0)
    && forall k | n < k < SLOTS :: space[k].range == 0
  }

  /** One space. If it cannot be had its range may be recorded, but no base. */
  method MapSpace(d: Driver, crd: Card, dev: PciDevice, j: nat, env: PciEnv, ghost base: set<Resource>) returns (result: int)
    requires crd.Valid() && j < SLOTS && Mapped(crd.ident, dev.bars, env, crd.space[..], j) && crd.space[j] == Space(0, 0)
    requires OwnsSpaces(d.held, base, crd.address, dev.bars, crd.space[..j])
    modifies d`held, d`faults, crd.space
    ensures d.faults == old(d.faults) && (result == 0 <==> SlotOk(crd.ident.spaces[j], dev.bars[j], env, j))
    ensures result == SpaceResult(crd.ident.spaces[j], dev.bars[j], env, j)
    ensures Mapped(crd.ident, dev.bars, env, crd.space[..], if result == 0 then j + 1 else j)
    ensures OwnsSpaces(d.held, base, crd.address, dev.bars, crd.space[..if result == 0 then j + 1 else j])
    ensures forall k | j < k < SLOTS :: crd.space[k] == old(crd.space[k])
  {
    var bar, space := dev.bars[j], crd.ident.spaces[j];
    ghost var before := crd.space[..j];
    result := 0;
    if bar.mem || bar.io {
      if bar.mem && space % 2 != 0 {
        return ENOMEM;
      }
      if !bar.mem && space % 2 == 0 && space != 0 {
        return ENOMEM;
      }
      var range := if bar.mem then space else space - space % 2;
      if range > bar.len {
        range := bar.len;
      }
      crd.space[j] := Space(0, range);
      if range > 0 {
        var b := if bar.mem then env.remap(j) else bar.start;
        if if bar.mem then b == 0 else !env.reserved(j) {
          assert crd.space[..j] == before;
          return if bar.mem then ENOMEM else EBUSY;
        }
        crd.space[j] := Space(b, range);
        SpaceIsNext(d.held, base, crd.address, dev.bars, before, Space(b, range));
        d.Acquire(SpaceResource(crd.address, bar, j, Space(b, range)));
      } else {
        SpaceIsNext(d.held, base, crd.address, dev.bars, before, Space(0, 0));
      }
    } else {
      SpaceIsNext(d.held, base, crd.address, dev.bars, before, Space(0, 0));
    }
    assert crd.space[..j + 1] == before + [SlotFor(space, bar, env, j)];
  }

  method MapSpaces(d: Driver, crd: Card, dev: PciDevice, env: PciEnv, ghost base: set<Resource>) returns (result: int)
    requires crd.Valid() && crd.Zeroed() && |dev.bars| == SLOTS
    requires d.held == base && forall r | r in base :: r.crd == crd.address ==> !r.Mapping? && !r.IoRegion?
    modifies d`held, d`faults, crd.space
    ensures d.faults == old(d.faults)
    ensures var n := Reached(crd.ident, dev.bars, env, 0);
            && (result == 0 <==> n == SLOTS || crd.ident.spaces[n] == NO_SPACE)
            && (result != 0 ==> n < SLOTS && result == SpaceResult(crd.ident.spaces[n], dev.bars[n], env, n))
            && Mapped(crd.ident, dev.bars, env, crd.space[..], n)
            && (result == 0 && n < SLOTS ==> crd.space[n].range == 0)
            && OwnsSpaces(d.held, base, crd.address, dev.bars, crd.space[..n])
  {
    result := 0;
    var j := 0;
    while j < SLOTS && crd.ident.spaces[j] != NO_SPACE
      invariant j <= SLOTS && result == 0 && d.faults == old(d.faults)
      invariant Reached(crd.ident, dev.bars, env, 0) == Reached(crd.ident, dev.bars, env, j)
      invariant Mapped(crd.ident, dev.bars, env, crd.space[..], j)
      invariant forall k | j <= k < SLOTS :: crd.space[k] == Space(0, 0)
      invariant OwnsSpaces(d.held, base, crd.address, dev.bars, crd.space[..j])
    {
      result := MapSpace(d, crd, dev, j, env, base);
      if result != 0 {
        break;
      }
      j := j + 1;
    }
  }

  // ---------------------------------------------------------------- giving spaces back

  function SlotOf(r: Resource): nat {
    if r.Mapping? || r.IoRegion? then r.slot else 0
  }

  function BaseOf(r: Resource): nat {
    match r
    case Mapping(_, _, base) => base
    case IoRegion(_, _, start, _) => start
    case _ => 0
  }

  /** Of the spaces, those from slot `j` on are left and, with `zero`, those at base 0. */
  ghost predicate OwnsSome(held: set<Resource>, base: set<Resource>, crd: nat, bars: seq<Bar>, space: seq<Space>, j: nat,
                           zero: bool)
  {
    forall r :: r in held <==>
      r in base || (SpaceHeld(crd, bars, space, r) && (SlotOf(r) >= j || (zero && BaseOf(r) == 0)))
  }

  lemma SpaceGoes(held: set<Resource>, base: set<Resource>, crd: nat, bars: seq<Bar>, space: seq<Space>, j: nat, zero: bool)
    requires OwnsSome(held, base, crd, bars, space, j, zero) && j < |space| <= |bars|
    requires forall r | r in base :: r.crd == crd ==> !r.Mapping? && !r.IoRegion?
    ensures var sp, r := space[j], SpaceResource(crd, bars[j], j, space[j]);
            if !bars[j].mem && !bars[j].io then OwnsSome(held, base, crd, bars, space, j + 1, zero)
            else && (sp.range == 0 || (zero && sp.base == 0) ==> OwnsSome(held, base, crd, bars, space, j + 1, zero))
                 && (sp.range > 0 && !(zero && sp.base == 0) ==>
                       r in held && OwnsSome(held - {r}, base, crd, bars, space, j + 1, zero))
  {
  }

  lemma SpacesEnd(held: set<Resource>, base: set<Resource>, crd: nat, bars: seq<Bar>, space: seq<Space>, j: nat, zero: bool)
    requires OwnsSome(held, base, crd, bars, space, j, zero) && |space| <= j
    ensures !zero ==> held == base
    ensures OwnsSome(held, base, crd, bars, space, j + 1, zero)
  {
  }

  /** release_2: every space with a base is unmapped or released, so what stays is what was had at base 0. */
  method ReleaseSpaces(d: Driver, crd: Card, dev: PciDevice, env: PciEnv, ghost base: set<Resource>, ghost n: nat)
    requires crd.Valid() && Mapped(crd.ident, dev.bars, env, crd.space[..], n)
    requires OwnsSpaces(d.held, base, crd.address, dev.bars, crd.space[..n])
    modifies d`held, d`faults
    ensures d.faults == old(d.faults)
    ensures OwnsSome(d.held, base, crd.address, dev.bars, crd.space[..n], SLOTS, true)
  {
    var j := 0;
    ghost var space := crd.space[..n];
    while j < SLOTS
      invariant j <= SLOTS && d.faults == old(d.faults)
      invariant OwnsSome(d.held, base, crd.address, dev.bars, space, j, true)
    {
      var sp, bar := crd.space[j], dev.bars[j];
      assert crd.space[..][j] == sp;
      if j < n {
        assert space[j] == sp;
        SpaceGoes(d.held, base, crd.address, dev.bars, space, j, true);
      } else {
        SpacesEnd(d.held, base, crd.address, dev.bars, space, j, true);
      }
      if sp.base != 0 && (bar.mem || bar.io) {
        d.Release(SpaceResource(crd.address, bar, j, sp));
      }
      j := j + 1;
    }
  }

  /** The loop at the end of can_detach_common goes by the range instead, and leaves nothing. */
  method UnmapSpaces(d: Driver, crd: Card, dev: PciDevice, ghost base: set<Resource>)
    requires crd.Valid() && |dev.bars| == SLOTS
    requires OwnsSpaces(d.held, base, crd.address, dev.bars, crd.space[..])
    modifies d`held, d`faults
    ensures d.faults == old(d.faults) && d.held == base
  {
    var j := 0;
    ghost var space := crd.space[..];
    while j < SLOTS
      invariant j <= SLOTS && d.faults == old(d.faults)
      invariant OwnsSome(d.held, base, crd.address, dev.bars, space, j, false)
    {
      var sp, bar := crd.space[j], dev.bars[j];
      SpaceGoes(d.held, base, crd.address, dev.bars, space, j, false);
      if sp.range != 0 && (bar.mem || bar.io) {
        d.Release(SpaceResource(crd.address, bar, j, sp));
      }
      j := j + 1;
    }
    SpacesEnd(d.held, base, crd.address, dev.bars, space, j, false);
  }

  // ---------------------------------------------------------------- can_attach and can_detach

  ghost predicate NothingOf(base: set<Resource>, crd: nat) {
    forall r | r in base :: r.crd != crd
  }

  /** What can_attach itself gets: the card's memory, MSI if it is on, and spaces. */
  predicate PciPart(crd: nat, msi: bool, bars: seq<Bar>, space: seq<Space>, r: Resource) {
    r == CardMemory(crd) || (msi && r == Msi(crd)) || SpaceHeld(crd, bars, space, r)
  }

  /** The ledger while can_attach is under way: `base` and what it has got so far. */
  ghost predicate UnderWay(held: set<Resource>, base: set<Resource>, crd: nat, msi: bool, bars: seq<Bar>, space: seq<Space>) {
    NothingOf(base, crd) && forall r :: r in held <==> r in base || PciPart(crd, msi, bars, space, r)
  }

  /** The ledger once a card is attached. */
  ghost predicate HasAll(held: set<Resource>, base: set<Resource>, msi: bool, bars: seq<Bar>, space: seq<Space>, st: Stock) {
    && NothingOf(base, st.crd)
    && forall r :: r in held <==> r in base || PciPart(st.crd, msi, bars, space, r) || Holds(st, r)
  }

  /** The device is attached, and besides `base` the ledger has exactly what the card's record shows. */
  ghost predicate FullyAttached(d: Driver, dev: PciDevice, base: set<Resource>)
    reads d, dev, dev.data, if dev.data == null then {} else {dev.data.node, dev.data.irqs, dev.data.irq, dev.data.space}
  {
    && dev.data != null && dev.data.Valid() && |dev.bars| == SLOTS && d.nodes != dev.data.node
    && OwnNodes(dev.data.node[..], dev.data.address)
    && (exists n: nat :: IrqsRequested(dev.data.ident, dev.data.irqs[..], n))
    && HasAll(d.held, base, dev.data.flagMsi, dev.bars, dev.data.space[..],
              StockOf(dev.data, dev.data.node[..], true, true))
  }

  /** The ledger without the kinds that can_detach_common cares for. */
  ghost function Others(held: set<Resource>, crd: nat): set<Resource> {
    set r | r in held && (r.crd != crd || !Common(r))
  }

  lemma CommonOnTop(held: set<Resource>, base: set<Resource>, msi: bool, bars: seq<Bar>, space: seq<Space>, st: Stock)
    requires HasAll(held, base, msi, bars, space, st)
    ensures Owns(held, Others(held, st.crd), st)
    ensures UnderWay(Others(held, st.crd), base, st.crd, msi, bars, space)
  {
  }

  lemma CommonAdded(held: set<Resource>, mid: set<Resource>, base: set<Resource>, msi: bool, bars: seq<Bar>,
                    space: seq<Space>, n: nat, st: Stock)
    requires n <= |space| && (forall k | n <= k < |space| :: space[k].range == 0)
    requires Owns(held, mid, st) && UnderWay(mid, base, st.crd, msi, bars, space[..n])
    ensures HasAll(held, base, msi, bars, space, st)
  {
  }

  /** Under the spaces there are the card's memory and MSI. */
  ghost function Core(base: set<Resource>, crd: nat, msi: bool): set<Resource> {
    base + {CardMemory(crd)} + if msi then {Msi(crd)} else {}
  }

  lemma SpacesOnTop(held: set<Resource>, base: set<Resource>, crd: nat, msi: bool, bars: seq<Bar>, space: seq<Space>)
    requires NothingOf(base, crd)
    ensures UnderWay(held, base, crd, msi, bars, space) <==> OwnsSpaces(held, Core(base, crd, msi), crd, bars, space)
  {
  }

  /** can_detach undoes can_attach: the ledger is what it was without the card. */
  method CanDetach(d: Driver, dev: PciDevice, ghost base: set<Resource>)
    requires d.Valid() && (dev.data != null ==> FullyAttached(d, dev, base))
    modifies d, d.nodes, dev
    ensures dev.data == null && d.faults == old(d.faults)
    ensures if old(dev.data) == null then d.held == old(d.held) && dev.master == old(dev.master)
            else d.held == base && !dev.master && d.attachedCards == old(d.attachedCards) - 1
    ensures old(dev.data) != null ==>
              forall k | 0 <= k < d.nodes.Length ::
                d.nodes[k] == if OwnEntry(old(dev.data).cardNo, k)
                                 && old(dev.data).node[k - old(dev.data).cardNo * NODES_PER_CARD].Some? then None
                              else old(d.nodes[k])
  {
    if dev.data == null {
      return;
    }
    var crd: Card := dev.data;
    dev.data := null;
    CommonOnTop(d.held, base, crd.flagMsi, dev.bars, crd.space[..], StockOf(crd, crd.node[..], true, true));
    DetachCommon(d, crd, Others(d.held, crd.address));
    SpacesOnTop(d.held, base, crd.address, crd.flagMsi, dev.bars, crd.space[..]);
    UnmapSpaces(d, crd, dev, Core(base, crd.address, crd.flagMsi));
    if crd.flagMsi {
      d.Release(Msi(crd.address));
    }
    dev.master := false;
    d.Release(CardMemory(crd.address));
    d.attachedCards := d.attachedCards - 1;
  }

  /** Space `j` is before the terminator of the table. */
  ghost predicate IsSpace(ident: CardIdent, j: nat) {
    j < |ident.spaces| && forall k | 0 <= k <= j :: ident.spaces[k] != NO_SPACE
  }

  ghost predicate AllSpacesHad(ident: CardIdent, bars: seq<Bar>, env: PciEnv)
    requires |ident.spaces| == |bars| == SLOTS
  {
    forall j: nat | IsSpace(ident, j) :: SpaceIsHad(ident.spaces[j], bars[j], env, j)
  }

  /** The kernel has the device, the spaces and all that can_attach_common needs. */
  ghost predicate AttachSucceeds(ident: CardIdent, bars: seq<Bar>, env: PciEnv)
    requires |ident.spaces| == |bars| == SLOTS
  {
    env.malloc && env.enabled && AllSpacesHad(ident, bars, env) && Succeeds(ident, env.common)
  }

  /** The space that fails first, if one does. */
  ghost predicate FailsFirst(ident: CardIdent, bars: seq<Bar>, env: PciEnv, j: nat)
    requires |ident.spaces| == |bars| == SLOTS
  {
    && IsSpace(ident, j) && !SpaceIsHad(ident.spaces[j], bars[j], env, j)
    && forall k: nat | k < j :: SpaceIsHad(ident.spaces[k], bars[k], env, k)
  }

  lemma ReachedAllIff(ident: CardIdent, bars: seq<Bar>, env: PciEnv)
    requires |ident.spaces| == |bars| == SLOTS
    ensures var n := Reached(ident, bars, env, 0);
            && (AllSpacesHad(ident, bars, env) <==> n == SLOTS || ident.spaces[n] == NO_SPACE)
            && (!AllSpacesHad(ident, bars, env) ==> FailsFirst(ident, bars, env, n))
  {
    var n := Reached(ident, bars, env, 0);
    forall k: nat | k < SLOTS
      ensures SlotOk(ident.spaces[k], bars[k], env, k) <==> SpaceIsHad(ident.spaces[k], bars[k], env, k)
    {
      SlotOkIff(ident.spaces[k], bars[k], env, k);
    }
    if n < SLOTS && ident.spaces[n] != NO_SPACE {
      assert IsSpace(ident, n);
    }
  }

  /** There is at most one such space. */
  lemma OneFailsFirst(ident: CardIdent, bars: seq<Bar>, env: PciEnv, i: nat, j: nat)
    requires |ident.spaces| == |bars| == SLOTS && FailsFirst(ident, bars, env, i) && FailsFirst(ident, bars, env, j)
    ensures i == j
  {
  }

  /** An I/O region that starts at 0 and has been reserved. */
  predicate AtZero(ident: CardIdent, bars: seq<Bar>, j: nat)
    requires |ident.spaces| == |bars| == SLOTS
  {
    j < SLOTS && !bars[j].mem && bars[j].io && bars[j].start == 0 && Wanted(ident.spaces[j], bars[j]) > 0
  }

  ghost predicate Leaks(ident: CardIdent, bars: seq<Bar>, env: PciEnv, crd: nat, r: Resource)
    requires |ident.spaces| == |bars| == SLOTS
  {
    && env.malloc && env.enabled && r.IoRegion? && r.crd == crd && r.slot < Reached(ident, bars, env, 0)
    && AtZero(ident, bars, r.slot) && r.start == 0 && r.len == Wanted(ident.spaces[r.slot], bars[r.slot])
  }

  /** What ReleaseSpaces leaves, told without the card. */
  lemma LeftOver(held: set<Resource>, base: set<Resource>, ident: CardIdent, bars: seq<Bar>, env: PciEnv, space: seq<Space>,
                 n: nat, crd: nat)
    requires env.malloc && env.enabled && Mapped(ident, bars, env, space, n) && n == Reached(ident, bars, env, 0)
    requires OwnsSome(held, base, crd, bars, space[..n], SLOTS, true)
    ensures forall r :: r in held <==> r in base || Leaks(ident, bars, env, crd, r)
  {
    forall r
      ensures SpaceHeld(crd, bars, space[..n], r) && BaseOf(r) == 0 <==> Leaks(ident, bars, env, crd, r)
    {
      var j := SlotOf(r);
      if j < n {
        assert space[..n][j] == SlotFor(ident.spaces[j], bars[j], env, j);
      }
    }
  }

  /** A failed attach gives everything back if and only if it has reserved no I/O region that starts at 0. */
  lemma BalancedUnlessAtZero(held: set<Resource>, base: set<Resource>, ident: CardIdent, bars: seq<Bar>, env: PciEnv, crd: nat)
    requires |ident.spaces| == |bars| == SLOTS && NothingOf(base, crd)
    requires forall r :: r in held <==> r in base || Leaks(ident, bars, env, crd, r)
    ensures held == base <==>
              !(env.malloc && env.enabled && exists j: nat :: j < Reached(ident, bars, env, 0) && AtZero(ident, bars, j))
  {
    if env.malloc && env.enabled {
      if j: nat :| j < Reached(ident, bars, env, 0) && AtZero(ident, bars, j) {
        var r := IoRegion(crd, j, 0, Wanted(ident.spaces[j], bars[j]));
        assert r in held && r !in base;
      }
    }
  }

  /** It happens: a region of 16 ports at 0 is reserved, and then can_board_attach fails. */
  lemma RegionAtZeroLeaks(crd: nat) returns (ident: CardIdent, bars: seq<Bar>, env: PciEnv)
    ensures |ident.spaces| == |bars| == SLOTS && WellFormed(ident) && !AttachSucceeds(ident, bars, env)
    ensures Leaks(ident, bars, env, crd, IoRegion(crd, 0, 0, 16))
  {
    ident := CardIdent([End, End, End, End, End, End, End, End],
                       [17, NO_SPACE, NO_SPACE, NO_SPACE, NO_SPACE, NO_SPACE, NO_SPACE, NO_SPACE]);
    var none := Bar(false, false, 0, 0);
    bars := [Bar(false, true, 0, 16), none, none, none, none, none, none, none];
    env := PciEnv(true, true, j => 0, j => true, false, Env(i => true, EBUSY, j => true, i => 0, 0));
    assert SlotOk(17, bars[0], env, 0) && Reached(ident, bars, env, 0) == Reached(ident, bars, env, 1);
  }

  /** release_2 and release_1. */
  method Unwind(d: Driver, dev: PciDevice, crd: Card, env: PciEnv, ghost base: set<Resource>, ghost n: nat)
    requires crd.Valid() && env.malloc && env.enabled && |dev.bars| == SLOTS
    requires Mapped(crd.ident, dev.bars, env, crd.space[..], n) && n == Reached(crd.ident, dev.bars, env, 0)
    requires UnderWay(d.held, base, crd.address, crd.flagMsi, dev.bars, crd.space[..n])
    modifies d`held, d`faults, dev`master
    ensures d.faults == old(d.faults) && !dev.master
    ensures forall r :: r in d.held <==> r in base || Leaks(crd.ident, dev.bars, env, crd.address, r)
  {
    ghost var core := Core(base, crd.address, crd.flagMsi);
    SpacesOnTop(d.held, base, crd.address, crd.flagMsi, dev.bars, crd.space[..n]);
    ReleaseSpaces(d, crd, dev, env, core, n);
    LeftOver(d.held, core, crd.ident, dev.bars, env, crd.space[..], n, crd.address);
    if crd.flagMsi {
      d.Release(Msi(crd.address));
    }
    dev.master := false;
    d.Release(CardMemory(crd.address));
  }

  /** Bus master, MSI and the interrupt line of the card. */
  method SetUp(d: Driver, dev: PciDevice, crd: Card, msi: bool, ghost base: set<Resource>, ghost n: nat)
    requires crd.Valid() && !crd.flagMsi && n <= SLOTS
    requires UnderWay(d.held, base, crd.address, false, dev.bars, crd.space[..n])
    modifies d`held, d`faults, dev`master, crd`flagMsi, crd.irq
    ensures d.faults == old(d.faults) && dev.master && crd.flagMsi == msi && crd.irq[0] == dev.irq
    ensures UnderWay(d.held, base, crd.address, msi, dev.bars, crd.space[..n])
  {
    dev.master := true;
    if msi {
      crd.flagMsi := true;
      d.Acquire(Msi(crd.address));
    }
    crd.irq[0] := dev.irq;
  }

  /** can_attach from the bus master on: the spaces are there, can_attach_common is to come. */
  method AttachMapped(d: Driver, dev: PciDevice, crd: Card, env: PciEnv, ghost base: set<Resource>, ghost n: nat)
      returns (result: int)
    requires d.Valid() && crd.Valid() && crd.Unused() && !crd.flagMsi && d.nodes != crd.node
    requires env.malloc && env.enabled && |dev.bars| == SLOTS && n == Reached(crd.ident, dev.bars, env, 0)
    requires Mapped(crd.ident, dev.bars, env, crd.space[..], n) && forall k | n <= k < SLOTS :: crd.space[k].range == 0
    requires UnderWay(d.held, base, crd.address, false, dev.bars, crd.space[..n])
    modifies d`held, d`faults, d.nodes, dev`master, crd, crd.node, crd.irqs, crd.irq
    ensures d.faults == old(d.faults) && dev.master == (result == 0)
    ensures result == CommonResult(crd.ident, env.common) && (result == 0 <==> Succeeds(crd.ident, env.common))
    ensures result == 0 ==> HasAll(d.held, base, crd.flagMsi, dev.bars, crd.space[..],
                                   StockOf(crd, crd.node[..], true, true))
                            && OwnNodes(crd.node[..], crd.address)
                            && (exists n: nat :: IrqsRequested(crd.ident, crd.irqs[..], n))
    ensures result == 0 ==> NodesAttached(crd.node[..], crd.address, env.common, NODES_PER_CARD) && crd.numNodes > 0
                            && Listed(old(d.nodes[..]), d.nodes[..], crd.cardNo, crd.node[..], NODES_PER_CARD)
    ensures result != 0 ==>
              && Cleared(old(d.nodes[..]), d.nodes[..], crd.cardNo)
              && forall r :: r in d.held <==> r in base || Leaks(crd.ident, dev.bars, env, crd.address, r)
  {
    SetUp(d, dev, crd, env.msi, base, n);
    ghost var mid := d.held;
    result := AttachCommon(d, crd, env.common, mid);
    if result != 0 {
      Unwind(d, dev, crd, env, base, n);
      return;
    }
    CommonAdded(d.held, mid, base, crd.flagMsi, dev.bars, crd.space[..], n, StockOf(crd, crd.node[..], true, true));
  }

  /** can_attach once the device is enabled. */
  method AttachEnabled(d: Driver, dev: PciDevice, crd: Card, env: PciEnv, ghost base: set<Resource>) returns (result: int)
    requires d.Valid() && crd.Valid() && crd.Zeroed() && d.nodes != crd.node && NothingOf(base, crd.address)
    requires env.malloc && env.enabled && |dev.bars| == SLOTS && d.held == base + {CardMemory(crd.address)}
    modifies d`held, d`faults, d.nodes, dev`master, crd, crd.node, crd.irqs, crd.irq, crd.space
    ensures d.faults == old(d.faults) && dev.master == (result == 0)
    ensures result == 0 <==> AttachSucceeds(crd.ident, dev.bars, env)
    ensures AllSpacesHad(crd.ident, dev.bars, env) ==> result == CommonResult(crd.ident, env.common)
    ensures forall j: nat | FailsFirst(crd.ident, dev.bars, env, j) ::
              result == SpaceResult(crd.ident.spaces[j], dev.bars[j], env, j)
    ensures result == 0 ==> HasAll(d.held, base, crd.flagMsi, dev.bars, crd.space[..],
                                   StockOf(crd, crd.node[..], true, true))
                            && OwnNodes(crd.node[..], crd.address)
                            && (exists n: nat :: IrqsRequested(crd.ident, crd.irqs[..], n))
    ensures result == 0 ==> NodesAttached(crd.node[..], crd.address, env.common, NODES_PER_CARD) && crd.numNodes > 0
                            && Listed(old(d.nodes[..]), d.nodes[..], crd.cardNo, crd.node[..], NODES_PER_CARD)
    ensures result != 0 ==>
              && Cleared(old(d.nodes[..]), d.nodes[..], crd.cardNo)
              && forall r :: r in d.held <==> r in base || Leaks(crd.ident, dev.bars, env, crd.address, r)
  {
    ghost var n := Reached(crd.ident, dev.bars, env, 0);
    result := MapSpaces(d, crd, dev, env, d.held);
    SpacesOnTop(d.held, base, crd.address, false, dev.bars, crd.space[..n]);
    ReachedAllIff(crd.ident, dev.bars, env);
    if result != 0 {
      forall j: nat | FailsFirst(crd.ident, dev.bars, env, j) ensures j == n {
        OneFailsFirst(crd.ident, dev.bars, env, n, j);
      }
      Unwind(d, dev, crd, env, base, n);
      return;
    }
    result := AttachMapped(d, dev, crd, env, base, n);
  }

  /** can_attach is all or nothing but for one thing. If it attaches the card, the ledger grows by exactly what the
      card's record shows; that is the case exactly if nothing failed. Otherwise it grows by nothing, except for the
      I/O regions at address 0 it had reserved: they have no base that could be told from none. The result is 0 as
      well when the device cannot be enabled. */
  method CanAttach(d: Driver, dev: PciDevice, ident: Option<CardIdent>, env: PciEnv, address: nat) returns (result: int)
    requires d.Valid() && dev.data == null && |dev.bars| == SLOTS && 0 <= d.attachedCards < MAX_CARDS
    requires NothingOf(d.held, address) && (ident.Some? ==> WellFormed(ident.value))
    modifies d, d.nodes, dev
    ensures d.faults == old(d.faults)
    ensures dev.data != null <==> ident.Some? && AttachSucceeds(ident.value, dev.bars, env)
    ensures dev.data != null ==> FullyAttached(d, dev, old(d.held)) && dev.data.address == address && fresh(dev.data)
                                 && dev.master && result == 0 && d.attachedCards == old(d.attachedCards) + 1
    ensures dev.data != null ==>
              && NodesAttached(dev.data.node[..], address, env.common, NODES_PER_CARD) && dev.data.numNodes > 0
              && Listed(old(d.nodes[..]), d.nodes[..], old(d.attachedCards), dev.data.node[..], NODES_PER_CARD)
    ensures ident.None? ==> result == ENODEV
    ensures ident.Some? && !env.malloc ==> result == ENOMEM
    ensures ident.Some? && env.malloc && env.enabled ==>
              && (AllSpacesHad(ident.value, dev.bars, env) ==> result == CommonResult(ident.value, env.common))
              && forall j: nat | FailsFirst(ident.value, dev.bars, env, j) ::
                   result == SpaceResult(ident.value.spaces[j], dev.bars[j], env, j)
    ensures dev.data == null ==>
              && (result == 0 <==> ident.Some? && env.malloc && !env.enabled)
              && d.attachedCards == old(d.attachedCards) && Cleared(old(d.nodes[..]), d.nodes[..], old(d.attachedCards))
              && (ident.Some? && env.malloc ==> !dev.master)
              && forall r :: r in d.held <==>
                   r in old(d.held) || (ident.Some? && Leaks(ident.value, dev.bars, env, address, r))
  {
    if ident.None? {
      return ENODEV;
    }
    if !env.malloc {
      return ENOMEM;
    }
    ghost var base := d.held;
    d.Acquire(CardMemory(address));
    var crd := new Card(address, d.attachedCards, ident.value);
    if !env.enabled {
      dev.master := false;
      d.Release(CardMemory(address));
      return 0;
    }
    result := AttachEnabled(d, dev, crd, env, base);
    if result == 0 {
      dev.data := crd;
      d.attachedCards := d.attachedCards + 1;
    }
  }

  /** Attach and, if that worked, detach: whatever other cards hold, the ledger is the same again. */
  method AttachAndDetach(d: Driver, dev: PciDevice, ident: CardIdent, env: PciEnv, address: nat)
    requires d.Valid() && dev.data == null && |dev.bars| == SLOTS && 0 <= d.attachedCards < MAX_CARDS
    requires NothingOf(d.held, address) && WellFormed(ident) && AttachSucceeds(ident, dev.bars, env)
    modifies d, d.nodes, dev
    ensures d.held == old(d.held) && d.faults == old(d.faults) && d.attachedCards == old(d.attachedCards)
  {
    ghost var base := d.held;
    var _ := CanAttach(d, dev, Some(ident), env, address);
    CanDetach(d, dev, base);
  }
}
