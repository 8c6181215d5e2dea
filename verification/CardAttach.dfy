/** Attaching and detaching the nodes of a card: can_attach_common and can_detach_common (esd/src/esdcan.c), with a
    ledger of what is held.

    The kernel, the nucleus and the board layer are an environment: each call that may fail gets its result from an
    Env. Whatever a call hands out is entered in the ledger, under the card and the slot it is for; entering a thing
    twice, and giving back a thing that is not there, is a fault and is counted. */
module CardAttach {
  import opened Basics

  const NODES_PER_CARD: nat := 4
  const MAX_CARDS: nat := 8
  const SLOTS: nat := 8
  const ENOMEM: int := 12
  const EBUSY: int := 16

  /** A pointer to the CAN_NODE of that number on that card. */
  datatype Node = Node(crd: nat, nodeNo: nat)

  datatype Resource =
    | CardMemory(crd: nat)
    | NodeMemory(crd: nat, slot: nat)
    | NodeLock(crd: nat, slot: nat)
    | NodeIrqLock(crd: nat, slot: nat)
    | Net(crd: nat, slot: nat)
    | Board(crd: nat)
    | BoardFinal(crd: nat)
    | Irq(crd: nat, slot: nat, line: nat)
    | Mapping(crd: nat, slot: nat, base: nat)
    | IoRegion(crd: nat, slot: nat, start: nat, len: nat)
    | Msi(crd: nat)

  /** Interrupts of a card type: `End` is the handler ~0, and a null handler is skipped. */
  datatype Handler = End | Handler(handler: nat, context: nat)

  const NO_HANDLER := Handler(0, 0)

  /** A PCI space: the mapped or reserved base and its length. */
  datatype Space = Space(base: nat, range: nat)

  datatype CardIdent = CardIdent(irqs: seq<Handler>, spaces: seq<nat>)

  /** The tables of a card type have eight entries and register no interrupt without a context. */
  ghost predicate WellFormed(ident: CardIdent) {
    && |ident.irqs| == SLOTS && |ident.spaces| == SLOTS
    && forall j | 0 <= j < SLOTS :: ident.irqs[j].Handler? && ident.irqs[j].handler != 0 ==> ident.irqs[j].context != 0
  }

  /** What the calls that may fail return: memory for a node, can_board_attach, request_irq, nuc_node_attach and
      can_board_attach_final. */
  datatype Env = Env(malloc: nat -> bool, board: int, irqGranted: nat -> bool, attach: nat -> int, final: int)

  // ---------------------------------------------------------------- what a card holds

  /** What a card has: its nodes, those of them that nuc_node_attach took, its registered interrupts (those with a
      context) with their lines, and how far the board is attached. */
  datatype Stock = Stock(
    crd: nat,
    lines: seq<nat>,
    node: seq<Option<Node>>,
    nets: seq<Option<Node>>,
    irqs: seq<Handler>,
    board: bool,
    final: bool)

  predicate There(node: seq<Option<Node>>, i: nat) {
    i < |node| && node[i].Some?
  }

  predicate Registered(irqs: seq<Handler>, i: nat) {
    i < |irqs| && irqs[i].Handler? && irqs[i].context != 0
  }

  predicate Holds(st: Stock, r: Resource) {
    r.crd == st.crd &&
    match r
    case NodeMemory(_, i) => There(st.node, i)
    case NodeLock(_, i) => There(st.node, i)
    case NodeIrqLock(_, i) => There(st.node, i)
    case Net(_, i) => There(st.nets, i)
    case Irq(_, i, line) => Registered(st.irqs, i) && i < |st.lines| && st.lines[i] == line
    case Board(_) => st.board
    case BoardFinal(_) => st.final
    case _ => false
  }

  predicate Common(r: Resource) {
    r.NodeMemory? || r.NodeLock? || r.NodeIrqLock? || r.Net? || r.Irq? || r.Board? || r.BoardFinal?
  }

  /** The ledger is `base`, in which that card has nothing of this kind, and what the card has. */
  ghost predicate Owns(held: set<Resource>, base: set<Resource>, st: Stock) {
    && (forall r | r in base :: r.crd == st.crd ==> !Common(r))
    && forall r :: r in held <==> r in base || Holds(st, r)
  }

  const NO_NODES: seq<Option<Node>> := [None, None, None, None]

  ghost predicate Bare(st: Stock) {
    && !st.board && !st.final && (forall i: nat :: !There(st.node, i) && !There(st.nets, i))
    && forall i: nat :: !Registered(st.irqs, i)
  }

  lemma BareOwnsNothing(held: set<Resource>, base: set<Resource>, st: Stock)
    requires Bare(st)
    ensures Owns(held, base, st) ==> held == base
    ensures held == base && (forall r | r in base :: r.crd == st.crd ==> !Common(r)) ==> Owns(held, base, st)
  {
  }

  function NodeResources(crd: nat, i: nat): set<Resource> {
    {NodeMemory(crd, i), NodeLock(crd, i), NodeIrqLock(crd, i)}
  }

  lemma NodeComes(held: set<Resource>, base: set<Resource>, st: Stock, i: nat, n: Node)
    requires Owns(held, base, st) && i < |st.node| && st.node[i].None?
    ensures held !! NodeResources(st.crd, i)
    ensures Owns(held + NodeResources(st.crd, i), base, st.(node := st.node[i := Some(n)]))
  {
  }

  lemma NodeGoes(held: set<Resource>, base: set<Resource>, st: Stock, i: nat)
    requires Owns(held, base, st) && i < |st.node| && st.node[i].Some?
    ensures NodeResources(st.crd, i) <= held
    ensures Owns(held - NodeResources(st.crd, i), base, st.(node := st.node[i := None]))
  {
  }

  lemma NetGoes(held: set<Resource>, base: set<Resource>, st: Stock, i: nat)
    requires Owns(held, base, st) && i < |st.nets| && st.nets[i].Some?
    ensures Net(st.crd, i) in held
    ensures Owns(held - {Net(st.crd, i)}, base, st.(nets := st.nets[i := None]))
  {
  }

  lemma IrqComes(held: set<Resource>, base: set<Resource>, st: Stock, i: nat, h: Handler)
    requires Owns(held, base, st) && i < |st.irqs| == |st.lines| && st.irqs[i] == NO_HANDLER
    requires h.Handler? && h.context != 0
    ensures Irq(st.crd, i, st.lines[i]) !in held
    ensures Owns(held + {Irq(st.crd, i, st.lines[i])}, base, st.(irqs := st.irqs[i := h]))
  {
  }

  lemma IrqGoes(held: set<Resource>, base: set<Resource>, st: Stock, i: nat)
    requires Owns(held, base, st) && i < |st.irqs| == |st.lines| && Registered(st.irqs, i)
    ensures Irq(st.crd, i, st.lines[i]) in held
    ensures Owns(held - {Irq(st.crd, i, st.lines[i])}, base, st.(irqs := st.irqs[i := NO_HANDLER]))
  {
  }

  lemma BoardComesAndGoes(held: set<Resource>, base: set<Resource>, st: Stock)
    requires Owns(held, base, st)
    ensures !st.board ==> Board(st.crd) !in held && Owns(held + {Board(st.crd)}, base, st.(board := true))
    ensures st.board ==> Board(st.crd) in held && Owns(held - {Board(st.crd)}, base, st.(board := false))
    ensures !st.final ==> BoardFinal(st.crd) !in held && Owns(held + {BoardFinal(st.crd)}, base, st.(final := true))
    ensures st.final ==> BoardFinal(st.crd) in held && Owns(held - {BoardFinal(st.crd)}, base, st.(final := false))
  {
  }

  // ---------------------------------------------------------------- the driver and a card

  class Driver {
    var held: set<Resource>
    var faults: nat
    var attachedCards: int
    const nodes: array<Option<Node>>

    ghost predicate Valid()
      reads this
    {
      nodes.Length == MAX_CARDS * NODES_PER_CARD
    }

    method Acquire(r: Resource)
      modifies this`held, this`faults
      ensures held == old(held) + {r}
      ensures faults == old(faults) + if r in old(held) then 1 else 0
    {
      if r in held {
        faults := faults + 1;
      }
      held := held + {r};
    }

    method Release(r: Resource)
      modifies this`held, this`faults
      ensures held == old(held) - {r}
      ensures faults == old(faults) + if r in old(held) then 0 else 1
    {
      if r !in held {
        faults := faults + 1;
      }
      held := held - {r};
    }
  }

  class Card {
    const address: nat
    const cardNo: nat
    const ident: CardIdent
    const node: array<Option<Node>>
    const irqs: array<Handler>
    const irq: array<nat>
    const space: array<Space>
    var numNodes: nat
    var flagMsi: bool

    ghost predicate Valid()
      reads this
    {
      && WellFormed(ident) && cardNo < MAX_CARDS
      && node.Length == NODES_PER_CARD && irqs.Length == SLOTS && irq.Length == SLOTS && space.Length == SLOTS
    }

    /** No node and no interrupt yet. */
    ghost predicate Unused()
      requires Valid()
      reads this, node, irqs
    {
      && (forall i | 0 <= i < NODES_PER_CARD :: node[i] == None)
      && (forall i | 0 <= i < SLOTS :: irqs[i] == NO_HANDLER)
    }

    /** All that the source's memset leaves zero. */
    ghost predicate Zeroed()
      requires Valid()
      reads this, node, irqs, space
    {
      Unused() && (forall i | 0 <= i < SLOTS :: space[i] == Space(0, 0)) && !flagMsi
    }

    constructor (address: nat, cardNo: nat, ident: CardIdent)
      requires WellFormed(ident) && cardNo < MAX_CARDS
      ensures Valid() && Zeroed() && this.address == address && this.cardNo == cardNo && this.ident == ident
      ensures fresh(node) && fresh(irqs) && fresh(irq) && fresh(space)
    {
      this.address, this.cardNo, this.ident := address, cardNo, ident;
      node := new Option<Node>[NODES_PER_CARD](_ => None);
      irqs := new Handler[SLOTS](_ => NO_HANDLER);
      irq := new nat[SLOTS](_ => 0);
      space := new Space[SLOTS](_ => Space(0, 0));
      numNodes, flagMsi := 0, false;
    }
  }

  // ---------------------------------------------------------------- acquiring

  /** The card's state as a stock; `nets`, `board` and `final` are not in the record. */
  ghost function StockOf(crd: Card, nets: seq<Option<Node>>, board: bool, final: bool): Stock
    reads crd.node, crd.irqs, crd.irq
  {
    Stock(crd.address, crd.irq[..], crd.node[..], nets, crd.irqs[..], board, final)
  }

  /** The first `n` nodes exist. */
  ghost predicate NodesCreated(node: seq<Option<Node>>, crd: nat, n: nat) {
    |node| == NODES_PER_CARD && forall i | 0 <= i < NODES_PER_CARD :: node[i] == if i < n then Some(Node(crd, i)) else None
  }

  /** One node with its two locks. */
  method CreateNode(d: Driver, crd: Card, i: nat, ghost base: set<Resource>)
    requires crd.Valid() && i < NODES_PER_CARD && NodesCreated(crd.node[..], crd.address, i)
    requires Owns(d.held, base, StockOf(crd, NO_NODES, false, false))
    modifies d`held, d`faults, crd.node
    ensures NodesCreated(crd.node[..], crd.address, i + 1) && d.faults == old(d.faults)
    ensures Owns(d.held, base, StockOf(crd, NO_NODES, false, false))
  {
    ghost var h, st := d.held, StockOf(crd, NO_NODES, false, false);
    NodeComes(h, base, st, i, Node(crd.address, i));
    d.Acquire(NodeMemory(crd.address, i));
    d.Acquire(NodeLock(crd.address, i));
    d.Acquire(NodeIrqLock(crd.address, i));
    assert d.held == h + NodeResources(crd.address, i);
    crd.node[i] := Some(Node(crd.address, i));
    assert crd.node[..] == st.node[i := Some(Node(crd.address, i))];
  }

  /** The first loop: memory and locks for each node; it stops at `n` when there is no memory for the next. */
  method CreateNodes(d: Driver, crd: Card, env: Env, ghost base: set<Resource>) returns (result: int, n: nat)
    requires crd.Valid() && NodesCreated(crd.node[..], crd.address, 0)
    requires Owns(d.held, base, StockOf(crd, NO_NODES, false, false))
    modifies d`held, d`faults, crd.node
    ensures n <= NODES_PER_CARD && result == if n == NODES_PER_CARD then 0 else ENOMEM
    ensures (forall i: nat | i < n :: env.malloc(i)) && (n < NODES_PER_CARD ==> !env.malloc(n))
    ensures NodesCreated(crd.node[..], crd.address, n) && d.faults == old(d.faults)
    ensures Owns(d.held, base, StockOf(crd, NO_NODES, false, false))
  {
    result := 0;
    n := 0;
    while n < NODES_PER_CARD
      invariant n <= NODES_PER_CARD && result == 0 && forall i: nat | i < n :: env.malloc(i)
      invariant NodesCreated(crd.node[..], crd.address, n) && d.faults == old(d.faults)
      invariant Owns(d.held, base, StockOf(crd, NO_NODES, false, false))
    {
      if !env.malloc(n) {
        result := ENOMEM;
        break;
      }
      CreateNode(d, crd, n, base);
      n := n + 1;
    }
  }

  /** The table of interrupts up to the terminator, and what has been registered of it: the first `n`. */
  ghost predicate IrqsRequested(ident: CardIdent, irqs: seq<Handler>, n: nat) {
    && |irqs| == SLOTS && |ident.irqs| == SLOTS && n <= SLOTS
    && (forall i | 0 <= i < n :: ident.irqs[i].Handler?)
    && forall i | 0 <= i < SLOTS ::
         irqs[i] == if i < n && ident.irqs[i].handler != 0 then ident.irqs[i] else NO_HANDLER
  }

  /** One interrupt: the entry is made first and cleared again if the kernel refuses. */
  method RequestIrq(d: Driver, crd: Card, j: nat, granted: bool, ghost base: set<Resource>)
    requires crd.Valid() && IrqsRequested(crd.ident, crd.irqs[..], j) && j < SLOTS
    requires crd.ident.irqs[j].Handler? && crd.ident.irqs[j].handler != 0
    requires Owns(d.held, base, StockOf(crd, NO_NODES, true, false))
    modifies d`held, d`faults, crd.irqs
    ensures IrqsRequested(crd.ident, crd.irqs[..], if granted then j + 1 else j) && d.faults == old(d.faults)
    ensures Owns(d.held, base, StockOf(crd, NO_NODES, true, false))
  {
    ghost var h, st := d.held, StockOf(crd, NO_NODES, true, false);
    IrqComes(h, base, st, j, crd.ident.irqs[j]);
    crd.irqs[j] := crd.ident.irqs[j];
    if granted {
      assert crd.irqs[..] == st.irqs[j := crd.ident.irqs[j]];
      d.Acquire(Irq(crd.address, j, crd.irq[j]));
    } else {
      crd.irqs[j] := NO_HANDLER;
      assert crd.irqs[..] == st.irqs;
    }
  }

  /** Entry `j` is before the terminator of the table. */
  ghost predicate InTable(irqs: seq<Handler>, j: nat) {
    j < |irqs| && forall k | 0 <= k <= j :: irqs[k].Handler?
  }

  ghost predicate IrqsGranted(ident: CardIdent, env: Env) {
    forall j: nat | InTable(ident.irqs, j) && ident.irqs[j].handler != 0 :: env.irqGranted(j)
  }

  /** The second loop: an interrupt for each handler; the first refusal ends it. */
  method RequestIrqs(d: Driver, crd: Card, env: Env, ghost base: set<Resource>) returns (result: int, ghost n: nat)
    requires crd.Valid() && IrqsRequested(crd.ident, crd.irqs[..], 0)
    requires Owns(d.held, base, StockOf(crd, NO_NODES, true, false))
    modifies d`held, d`faults, crd.irqs
    ensures result == if IrqsGranted(crd.ident, env) then 0 else EBUSY
    ensures IrqsRequested(crd.ident, crd.irqs[..], n) && d.faults == old(d.faults)
    ensures result == 0 ==> n == SLOTS || crd.ident.irqs[n].End?
    ensures Owns(d.held, base, StockOf(crd, NO_NODES, true, false))
  {
    result := 0;
    var j := 0;
    while j < SLOTS && crd.ident.irqs[j] != End
      invariant j <= SLOTS && result == 0
      invariant IrqsRequested(crd.ident, crd.irqs[..], j) && d.faults == old(d.faults)
      invariant forall k: nat | k < j && crd.ident.irqs[k].handler != 0 :: env.irqGranted(k)
      invariant Owns(d.held, base, StockOf(crd, NO_NODES, true, false))
    {
      if crd.ident.irqs[j].handler != 0 {
        RequestIrq(d, crd, j, env.irqGranted(j), base);
        if !env.irqGranted(j) {
          result := EBUSY;
          assert InTable(crd.ident.irqs, j);
          break;
        }
      }
      j := j + 1;
    }
    n := j;
  }

  // ---------------------------------------------------------------- attaching the nodes

  /** Each entry is empty or points to the node of that slot. */
  ghost predicate OwnNodes(node: seq<Option<Node>>, crd: nat) {
    |node| == NODES_PER_CARD && forall i | 0 <= i < NODES_PER_CARD :: node[i] == None || node[i] == Some(Node(crd, i))
  }

  /** The global table: the first `n` entries of the card are those of `node`, the rest is untouched. */
  ghost predicate Listed(was: seq<Option<Node>>, now: seq<Option<Node>>, cardNo: nat, node: seq<Option<Node>>, n: nat) {
    && |now| == |was| == MAX_CARDS * NODES_PER_CARD && n <= |node|
    && forall k | 0 <= k < |now| ::
         now[k] == if 0 <= k - cardNo * NODES_PER_CARD < n then node[k - cardNo * NODES_PER_CARD] else was[k]
  }

  lemma NetIsNext(held: set<Resource>, base: set<Resource>, st: Stock, n: Option<Node>)
    requires Owns(held, base, st)
    ensures n.None? ==> Owns(held, base, st.(nets := st.nets + [n]))
    ensures n.Some? ==> Net(st.crd, |st.nets|) !in held
                        && Owns(held + {Net(st.crd, |st.nets|)}, base, st.(nets := st.nets + [n]))
  {
  }

  method DestroyNode(d: Driver, node: Node, ghost base: set<Resource>, ghost st: Stock)
    requires Owns(d.held, base, st) && node.crd == st.crd && There(st.node, node.nodeNo)
    modifies d`held, d`faults
    ensures d.faults == old(d.faults) && Owns(d.held, base, st.(node := st.node[node.nodeNo := None]))
  {
    ghost var h := d.held;
    NodeGoes(h, base, st, node.nodeNo);
    d.Release(NodeIrqLock(node.crd, node.nodeNo));
    d.Release(NodeLock(node.crd, node.nodeNo));
    d.Release(NodeMemory(node.crd, node.nodeNo));
    assert d.held == h - NodeResources(node.crd, node.nodeNo);
  }

  /** nuc_node_attach for one node; if it fails, the node goes. */
  method AttachNode(d: Driver, crd: Card, i: nat, result: int, ghost base: set<Resource>)
    requires crd.Valid() && i < NODES_PER_CARD && OwnNodes(crd.node[..], crd.address) && crd.node[i].Some?
    requires Owns(d.held, base, StockOf(crd, crd.node[..i], true, false))
    modifies d`held, d`faults, crd.node
    ensures crd.node[..] == if result == 0 then old(crd.node[..]) else old(crd.node[..])[i := None]
    ensures d.faults == old(d.faults)
    ensures Owns(d.held, base, StockOf(crd, crd.node[..i + 1], true, false))
  {
    ghost var st := StockOf(crd, crd.node[..i], true, false);
    var node := crd.node[i].value;
    if result != 0 {
      DestroyNode(d, node, base, st);
      crd.node[i] := None;
      assert crd.node[..] == st.node[i := None];
      NetIsNext(d.held, base, st.(node := crd.node[..]), None);
    } else {
      NetIsNext(d.held, base, st, crd.node[i]);
      d.Acquire(Net(node.crd, node.nodeNo));
    }
    assert crd.node[..i + 1] == st.nets + [crd.node[i]];
  }

  /** The entry of the global table follows that of the card. */
  method ListNode(d: Driver, crd: Card, i: nat, ghost was: seq<Option<Node>>, ghost node: seq<Option<Node>>)
    requires d.Valid() && crd.Valid() && d.nodes != crd.node && i < NODES_PER_CARD
    requires |node| == NODES_PER_CARD && node[..i] == crd.node[..i]
    requires Listed(was, d.nodes[..], crd.cardNo, node, i)
    modifies d.nodes
    ensures Listed(was, d.nodes[..], crd.cardNo, crd.node[..], i + 1)
  {
    assert forall k | 0 <= k < i :: node[k] == node[..i][k] == crd.node[k];
    d.nodes[crd.cardNo * NODES_PER_CARD + i] := crd.node[i];
  }

  ghost predicate NodesAttached(node: seq<Option<Node>>, crd: nat, env: Env, n: nat) {
    && |node| == NODES_PER_CARD
    && forall i | 0 <= i < NODES_PER_CARD ::
         node[i] == if i < n && env.attach(i) != 0 then None else Some(Node(crd, i))
  }

  /** The third loop: nuc_node_attach and the global table. A node that fails is dropped; the others stay. */
  method AttachNodes(d: Driver, crd: Card, env: Env, ghost base: set<Resource>) returns (result: int)
    requires d.Valid() && crd.Valid() && d.nodes != crd.node && NodesCreated(crd.node[..], crd.address, NODES_PER_CARD)
    requires Owns(d.held, base, StockOf(crd, [], true, false))
    modifies d`held, d`faults, d.nodes, crd`numNodes, crd.node
    ensures NodesAttached(crd.node[..], crd.address, env, NODES_PER_CARD)
    ensures Listed(old(d.nodes[..]), d.nodes[..], crd.cardNo, crd.node[..], NODES_PER_CARD)
    ensures crd.numNodes == 0 <==> forall i: nat | i < NODES_PER_CARD :: env.attach(i) != 0
    ensures result == env.attach(NODES_PER_CARD - 1) && d.faults == old(d.faults)
    ensures Owns(d.held, base, StockOf(crd, crd.node[..], true, false))
  {
    crd.numNodes := 0;
    result := 0;
    var i := 0;
    assert crd.node[..0] == [];
    while i < NODES_PER_CARD
      invariant i <= NODES_PER_CARD && d.faults == old(d.faults)
      invariant NodesAttached(crd.node[..], crd.address, env, i)
      invariant Listed(old(d.nodes[..]), d.nodes[..], crd.cardNo, crd.node[..], i)
      invariant crd.numNodes == 0 <==> forall k: nat | k < i :: env.attach(k) != 0
      invariant i > 0 ==> result == env.attach(i - 1)
      invariant Owns(d.held, base, StockOf(crd, crd.node[..i], true, false))
    {
      result := env.attach(i);
      assert crd.node[i] == crd.node[..][i];
      ghost var node := crd.node[..];
      AttachNode(d, crd, i, result, base);
      assert crd.node[i] == crd.node[..][i] && crd.node[..i] == node[..i];
      ListNode(d, crd, i, old(d.nodes[..]), node);
      if crd.node[i].Some? {
        crd.numNodes := crd.numNodes + 1;
      }
      i := i + 1;
    }
    assert crd.node[..NODES_PER_CARD] == crd.node[..];
  }

  // ---------------------------------------------------------------- giving back

  /** common_attach_3: the nodes leave the nucleus and the global table. */
  method DetachNets(d: Driver, crd: Card, ghost base: set<Resource>, ghost st: Stock) returns (ghost st': Stock)
    requires d.Valid() && crd.Valid() && d.nodes != crd.node && OwnNodes(crd.node[..], crd.address)
    requires Owns(d.held, base, st) && st.crd == crd.address && st.nets == crd.node[..]
    modifies d`held, d`faults, d.nodes
    ensures d.faults == old(d.faults) && Owns(d.held, base, st')
    ensures st' == st.(nets := st'.nets) && forall i: nat :: !There(st'.nets, i)
    ensures forall k | 0 <= k < d.nodes.Length ::
              d.nodes[k] == if crd.cardNo * NODES_PER_CARD <= k < (crd.cardNo + 1) * NODES_PER_CARD
                               && crd.node[k - crd.cardNo * NODES_PER_CARD].Some? then None else old(d.nodes[k])
  {
    st' := st;
    var i := 0;
    while i < NODES_PER_CARD
      invariant i <= NODES_PER_CARD && d.faults == old(d.faults) && Owns(d.held, base, st')
      invariant st' == st.(nets := st'.nets) && |st'.nets| == NODES_PER_CARD
      invariant forall k | 0 <= k < NODES_PER_CARD :: st'.nets[k] == if k < i then None else crd.node[k]
      invariant forall k | 0 <= k < d.nodes.Length ::
                  d.nodes[k] == if 0 <= k - crd.cardNo * NODES_PER_CARD < i
                                   && crd.node[k - crd.cardNo * NODES_PER_CARD].Some? then None else old(d.nodes[k])
    {
      assert crd.node[i] == crd.node[..][i];
      if crd.node[i].Some? {
        var node := crd.node[i].value;
        d.nodes[crd.cardNo * NODES_PER_CARD + i] := None;
        NetGoes(d.held, base, st', i);
        d.Release(Net(node.crd, node.nodeNo));
        st' := st'.(nets := st'.nets[i := None]);
      }
      i := i + 1;
    }
  }

  /** common_attach_2, and the same loop of can_detach_common: every interrupt with a context is freed. */
  method FreeIrqs(d: Driver, crd: Card, ghost base: set<Resource>, ghost st: Stock, ghost n: nat) returns (ghost st': Stock)
    requires crd.Valid() && IrqsRequested(crd.ident, crd.irqs[..], n)
    requires Owns(d.held, base, st) && st.crd == crd.address && st.lines == crd.irq[..] && st.irqs == crd.irqs[..]
    modifies d`held, d`faults
    ensures d.faults == old(d.faults) && Owns(d.held, base, st')
    ensures st' == st.(irqs := st'.irqs) && forall i: nat :: !Registered(st'.irqs, i)
  {
    st' := st;
    var j := 0;
    while j < SLOTS && crd.ident.irqs[j] != End
      invariant j <= SLOTS && d.faults == old(d.faults) && Owns(d.held, base, st')
      invariant st' == st.(irqs := st'.irqs) && |st'.irqs| == SLOTS
      invariant forall k | 0 <= k < SLOTS :: st'.irqs[k] == if k < j then NO_HANDLER else crd.irqs[k]
      invariant forall k | 0 <= k < j :: crd.ident.irqs[k].Handler?
    {
      assert crd.irqs[j] == crd.irqs[..][j];
      if crd.irqs[j].context != 0 {
        IrqGoes(d.held, base, st', j);
        d.Release(Irq(crd.address, j, crd.irq[j]));
        st' := st'.(irqs := st'.irqs[j := NO_HANDLER]);
      }
      j := j + 1;
    }
    forall k: nat ensures !Registered(st'.irqs, k) {
      if j <= k < SLOTS {
        assert crd.irqs[k] == crd.irqs[..][k];
      }
    }
  }

  /** common_attach_1: the nodes below `n` go, in reverse order. */
  method DestroyNodes(d: Driver, crd: Card, n: nat, ghost base: set<Resource>, ghost st: Stock) returns (ghost st': Stock)
    requires crd.Valid() && OwnNodes(crd.node[..], crd.address) && n <= NODES_PER_CARD
    requires Owns(d.held, base, st) && st.crd == crd.address && st.node == crd.node[..]
    requires forall i | n <= i < NODES_PER_CARD :: crd.node[i] == None
    modifies d`held, d`faults
    ensures d.faults == old(d.faults) && Owns(d.held, base, st')
    ensures st' == st.(node := st'.node) && forall i: nat :: !There(st'.node, i)
  {
    st' := st;
    var i := n;
    while i > 0
      invariant i <= n && d.faults == old(d.faults) && Owns(d.held, base, st')
      invariant st' == st.(node := st'.node) && |st'.node| == NODES_PER_CARD
      invariant forall k | 0 <= k < NODES_PER_CARD :: st'.node[k] == if k < i then crd.node[k] else None
    {
      i := i - 1;
      assert crd.node[i] == crd.node[..][i];
      if crd.node[i].Some? {
        DestroyNode(d, crd.node[i].value, base, st');
        st' := st'.(node := st'.node[i := None]);
      }
    }
  }

  // ---------------------------------------------------------------- can_attach_common and can_detach_common

  /** The entries of that card in the global table. */
  predicate OwnEntry(cardNo: nat, k: int) {
    cardNo * NODES_PER_CARD <= k < (cardNo + 1) * NODES_PER_CARD
  }

  /** Outside the card's entries nothing changed, and those are as they were or empty. */
  ghost predicate Cleared(was: seq<Option<Node>>, now: seq<Option<Node>>, cardNo: nat) {
    |now| == |was| && forall k | 0 <= k < |now| :: now[k] == was[k] || (OwnEntry(cardNo, k) && now[k] == None)
  }

  method Rollback1(d: Driver, crd: Card, n: nat, ghost base: set<Resource>, ghost st: Stock)
    requires crd.Valid() && OwnNodes(crd.node[..], crd.address) && n <= NODES_PER_CARD
    requires forall i | n <= i < NODES_PER_CARD :: crd.node[..][i] == None
    requires Owns(d.held, base, st) && st.crd == crd.address && st.node == crd.node[..]
    requires Bare(st.(node := NO_NODES))
    modifies d`held, d`faults
    ensures d.held == base && d.faults == old(d.faults)
  {
    assert forall i | n <= i < NODES_PER_CARD :: crd.node[i] == crd.node[..][i];
    ghost var st' := DestroyNodes(d, crd, n, base, st);
    BareOwnsNothing(d.held, base, st');
  }

  method Rollback2(d: Driver, crd: Card, ghost base: set<Resource>, ghost st: Stock, ghost n: nat)
    requires crd.Valid() && OwnNodes(crd.node[..], crd.address) && IrqsRequested(crd.ident, crd.irqs[..], n)
    requires Owns(d.held, base, st) && st.crd == crd.address && st.lines == crd.irq[..]
    requires st.node == crd.node[..] && st.irqs == crd.irqs[..] && st.board && !st.final
    requires forall i: nat :: !There(st.nets, i)
    modifies d`held, d`faults
    ensures d.held == base && d.faults == old(d.faults)
  {
    ghost var st' := FreeIrqs(d, crd, base, st, n);
    BoardComesAndGoes(d.held, base, st');
    d.Release(Board(crd.address));
    Rollback1(d, crd, NODES_PER_CARD, base, st'.(board := false));
  }

  method Rollback3(d: Driver, crd: Card, ghost base: set<Resource>, ghost n: nat)
    requires d.Valid() && crd.Valid() && d.nodes != crd.node
    requires OwnNodes(crd.node[..], crd.address) && IrqsRequested(crd.ident, crd.irqs[..], n)
    requires Owns(d.held, base, StockOf(crd, crd.node[..], true, false))
    modifies d`held, d`faults, d.nodes
    ensures d.held == base && d.faults == old(d.faults)
    ensures forall k | 0 <= k < d.nodes.Length ::
              d.nodes[k] == if OwnEntry(crd.cardNo, k) && crd.node[k - crd.cardNo * NODES_PER_CARD].Some? then None
                            else old(d.nodes[k])
  {
    ghost var st := DetachNets(d, crd, base, StockOf(crd, crd.node[..], true, false));
    Rollback2(d, crd, base, st, n);
  }

  /** When all that may fail goes well: one node of the four is enough. */
  ghost predicate Succeeds(ident: CardIdent, env: Env) {
    && (forall i: nat | i < NODES_PER_CARD :: env.malloc(i)) && env.board == 0 && IrqsGranted(ident, env)
    && (exists i: nat :: i < NODES_PER_CARD && env.attach(i) == 0) && env.final == 0
  }

  /** What is returned: the first thing that fails decides, in the order in which things are asked for. */
  ghost function CommonResult(ident: CardIdent, env: Env): int {
    if exists i: nat :: i < NODES_PER_CARD && !env.malloc(i) then ENOMEM
    else if env.board != 0 then env.board
    else if !IrqsGranted(ident, env) then EBUSY
    else if forall i: nat | i < NODES_PER_CARD :: env.attach(i) != 0 then env.attach(NODES_PER_CARD - 1)
    else env.final
  }

  /** What a successful attach leaves: exactly what the card's record says is in the ledger besides `base`. */
  ghost predicate Attached(d: Driver, crd: Card, base: set<Resource>)
    requires crd.Valid()
    reads d, crd, crd.node, crd.irqs, crd.irq
  {
    && OwnNodes(crd.node[..], crd.address)
    && (exists n: nat :: IrqsRequested(crd.ident, crd.irqs[..], n))
    && Owns(d.held, base, StockOf(crd, crd.node[..], true, true))
  }

  /** The first part: the nodes and the board. */
  method AttachBoard(d: Driver, crd: Card, env: Env, ghost base: set<Resource>) returns (result: int)
    requires crd.Valid() && crd.Unused()
    requires d.held == base && forall r | r in base :: r.crd == crd.address ==> !Common(r)
    modifies d`held, d`faults, crd.node
    ensures result == if exists i: nat :: i < NODES_PER_CARD && !env.malloc(i) then ENOMEM else env.board
    ensures d.faults == old(d.faults) && (result != 0 ==> d.held == base)
    ensures result == 0 ==> NodesCreated(crd.node[..], crd.address, NODES_PER_CARD)
                            && IrqsRequested(crd.ident, crd.irqs[..], 0)
                            && Owns(d.held, base, StockOf(crd, NO_NODES, true, false))
  {
    BareOwnsNothing(d.held, base, StockOf(crd, NO_NODES, false, false));
    var n;
    result, n := CreateNodes(d, crd, env, base);
    if result == 0 {
      result := env.board;
    }
    ghost var st := StockOf(crd, NO_NODES, false, false);
    if result != 0 {
      Rollback1(d, crd, n, base, st);
      return result;
    }
    BoardComesAndGoes(d.held, base, st);
    d.Acquire(Board(crd.address));
  }

  /** The second half, once memory, board and interrupts are there. */
  method AttachRest(d: Driver, crd: Card, env: Env, ghost base: set<Resource>, ghost m: nat) returns (result: int)
    requires d.Valid() && crd.Valid() && d.nodes != crd.node && NodesCreated(crd.node[..], crd.address, NODES_PER_CARD)
    requires IrqsRequested(crd.ident, crd.irqs[..], m)
    requires Owns(d.held, base, StockOf(crd, NO_NODES, true, false))
    modifies d`held, d`faults, d.nodes, crd`numNodes, crd.node
    ensures result == if forall i: nat | i < NODES_PER_CARD :: env.attach(i) != 0
                      then env.attach(NODES_PER_CARD - 1) else env.final
    ensures d.faults == old(d.faults)
    ensures result == 0 ==> Attached(d, crd, base) && crd.numNodes > 0
                            && Listed(old(d.nodes[..]), d.nodes[..], crd.cardNo, crd.node[..], NODES_PER_CARD)
                            && NodesAttached(crd.node[..], crd.address, env, NODES_PER_CARD)
    ensures result != 0 ==> d.held == base && Cleared(old(d.nodes[..]), d.nodes[..], crd.cardNo)
  {
    assert Owns(d.held, base, StockOf(crd, [], true, false));
    result := AttachNodes(d, crd, env, base);
    if crd.numNodes == 0 {
      Rollback3(d, crd, base, m);
      return result;
    }
    result := env.final;
    if result != 0 {
      Rollback3(d, crd, base, m);
      return result;
    }
    BoardComesAndGoes(d.held, base, StockOf(crd, crd.node[..], true, false));
    d.Acquire(BoardFinal(crd.address));
    return 0;
  }

  /** All or nothing. On success the ledger grows by exactly what the card's record shows; on failure, wherever it
      comes from, everything acquired before is given back, nothing twice, and the card has no entry left that it
      has made. */
  method AttachCommon(d: Driver, crd: Card, env: Env, ghost base: set<Resource>) returns (lastError: int)
    requires d.Valid() && crd.Valid() && crd.Unused() && d.nodes != crd.node
    requires d.held == base && forall r | r in base :: r.crd == crd.address ==> !Common(r)
    modifies d`held, d`faults, d.nodes, crd`numNodes, crd.node, crd.irqs
    ensures lastError == CommonResult(crd.ident, env) && (lastError == 0 <==> Succeeds(crd.ident, env))
    ensures d.faults == old(d.faults)
    ensures lastError == 0 ==> Attached(d, crd, base) && crd.numNodes > 0
                               && Listed(old(d.nodes[..]), d.nodes[..], crd.cardNo, crd.node[..], NODES_PER_CARD)
                               && NodesAttached(crd.node[..], crd.address, env, NODES_PER_CARD)
    ensures lastError != 0 ==> d.held == base && Cleared(old(d.nodes[..]), d.nodes[..], crd.cardNo)
  {
    var result := AttachBoard(d, crd, env, base);
    if result != 0 {
      return result;
    }
    ghost var m;
    result, m := RequestIrqs(d, crd, env, base);
    if result != 0 {
      Rollback2(d, crd, base, StockOf(crd, NO_NODES, true, false), m);
      return result;
    }
    lastError := AttachRest(d, crd, env, base, m);
  }

  /** can_detach_common gives back what the record shows, and empties the card's entries in the global table. */
  method DetachCommon(d: Driver, crd: Card, ghost base: set<Resource>)
    requires d.Valid() && crd.Valid() && d.nodes != crd.node && Attached(d, crd, base)
    modifies d`held, d`faults, d.nodes
    ensures d.held == base && d.faults == old(d.faults)
    ensures forall k | 0 <= k < d.nodes.Length ::
              d.nodes[k] == if OwnEntry(crd.cardNo, k) && crd.node[k - crd.cardNo * NODES_PER_CARD].Some? then None
                            else old(d.nodes[k])
  {
    ghost var st := StockOf(crd, crd.node[..], true, true);
    ghost var n: nat :| IrqsRequested(crd.ident, crd.irqs[..], n);
    BoardComesAndGoes(d.held, base, st);
    d.Release(Board(crd.address));
    st := FreeIrqs(d, crd, base, st.(board := false), n);
    st := RemoveNodes(d, crd, base, st);
    BoardComesAndGoes(d.held, base, st);
    d.Release(BoardFinal(crd.address));
    BareOwnsNothing(d.held, base, st.(final := false));
  }

  /** The loop of can_detach_common over the nodes. */
  method RemoveNodes(d: Driver, crd: Card, ghost base: set<Resource>, ghost st: Stock) returns (ghost st': Stock)
    requires d.Valid() && crd.Valid() && d.nodes != crd.node && OwnNodes(crd.node[..], crd.address)
    requires Owns(d.held, base, st) && st.crd == crd.address && st.nets == st.node == crd.node[..]
    modifies d`held, d`faults, d.nodes
    ensures d.faults == old(d.faults) && Owns(d.held, base, st')
    ensures st' == st.(nets := NO_NODES, node := NO_NODES)
    ensures forall k | 0 <= k < d.nodes.Length ::
              d.nodes[k] == if OwnEntry(crd.cardNo, k) && crd.node[k - crd.cardNo * NODES_PER_CARD].Some? then None
                            else old(d.nodes[k])
  {
    st' := st;
    var i := 0;
    while i < NODES_PER_CARD
      invariant i <= NODES_PER_CARD && d.faults == old(d.faults) && Owns(d.held, base, st')
      invariant st' == st.(nets := st'.nets, node := st'.node) && |st'.nets| == |st'.node| == NODES_PER_CARD
      invariant forall k | 0 <= k < NODES_PER_CARD :: st'.nets[k] == st'.node[k] == if k < i then None else crd.node[k]
      invariant forall k | 0 <= k < d.nodes.Length ::
                  d.nodes[k] == if 0 <= k - crd.cardNo * NODES_PER_CARD < i
                                   && crd.node[k - crd.cardNo * NODES_PER_CARD].Some? then None else old(d.nodes[k])
    {
      assert crd.node[i] == crd.node[..][i];
      if crd.node[i].Some? {
        d.nodes[crd.cardNo * NODES_PER_CARD + i] := None;
        st' := RemoveNode(d, crd.node[i].value, base, st');
      }
      i := i + 1;
    }
    assert st'.nets == NO_NODES && st'.node == NO_NODES;
  }

  method RemoveNode(d: Driver, node: Node, ghost base: set<Resource>, ghost st: Stock) returns (ghost st': Stock)
    requires Owns(d.held, base, st) && node.crd == st.crd && There(st.node, node.nodeNo) && There(st.nets, node.nodeNo)
    modifies d`held, d`faults
    ensures d.faults == old(d.faults) && Owns(d.held, base, st')
    ensures st' == st.(nets := st.nets[node.nodeNo := None], node := st.node[node.nodeNo := None])
  {
    NetGoes(d.held, base, st, node.nodeNo);
    d.Release(Net(node.crd, node.nodeNo));
    st' := st.(nets := st.nets[node.nodeNo := None]);
    DestroyNode(d, node, base, st');
    st' := st'.(node := st.node[node.nodeNo := None]);
  }
}
