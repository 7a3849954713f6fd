/** The audio graph: nodes that step once a block, each on the outputs of nodes added before it. */
module AudioGraph {
  import opened Storage

  type Sample = real

  /** Samples in a block of audio; not the block size of the file system. */
  const BLOCK_SAMPLES: nat := 64

  const MAX_INPUTS: nat := 8

  type Block = b: seq<Sample> | |b| == BLOCK_SAMPLES witness seq(BLOCK_SAMPLES, _ => 0.0)

  function Silence(): Block { seq(BLOCK_SAMPLES, _ => 0.0) }

  /** The registers of a node: phases, gains, whatever it keeps from block to block. */
  type State = seq<Sample>

  /** A node: its state, and how a block of every connected input makes its next state and its output. */
  datatype Node = Node(state: State, step: (State, seq<Block>) -> (State, Block))

  type Wires = seq<seq<Option<nat>>>

  // ----- what one pass means

  predicate IsWired(wires: Wires, id: nat, port: nat) {
    && id < |wires| && port < |wires[id]| && port < MAX_INPUTS
    && wires[id][port].Some? && wires[id][port].value < id
  }

  /** One more than the highest port, below `limit`, that an earlier node is wired to. */
  function Ports(wires: Wires, id: nat, limit: nat): (n: nat)
    ensures n <= limit
    ensures forall p :: n <= p < limit ==> !IsWired(wires, id, p)
    ensures n > 0 ==> IsWired(wires, id, n - 1)
  {
    if limit == 0 then 0 else if IsWired(wires, id, limit - 1) then limit else Ports(wires, id, limit - 1)
  }

  /**
   * The dataflow meaning of a node in one pass: it steps on what its earlier sources put out in
   * the same pass, and on silence at ports that have none.
   */
  function Stepped(nodes: seq<Node>, wires: Wires, id: nat): (State, Block)
    requires id < |nodes|
    decreases id, 1
  {
    nodes[id].step(nodes[id].state, Inputs(nodes, wires, id))
  }

  function Inputs(nodes: seq<Node>, wires: Wires, id: nat): (inputs: seq<Block>)
    requires id < |nodes|
    ensures |inputs| == Ports(wires, id, MAX_INPUTS)
    decreases id, 0
  {
    seq(Ports(wires, id, MAX_INPUTS), p requires 0 <= p < Ports(wires, id, MAX_INPUTS) =>
      if IsWired(wires, id, p) then Stepped(nodes, wires, wires[id][p].value).1 else Silence())
  }

  /** The outputs of the nodes before `n`, in order. */
  function OutputsOf(nodes: seq<Node>, wires: Wires, n: nat): (r: seq<Block>)
    requires n <= |nodes|
    ensures |r| == n
  {
    seq(n, id requires 0 <= id < n => Stepped(nodes, wires, id).1)
  }

  /** The nodes after a pass. */
  function Passed(nodes: seq<Node>, wires: Wires): (r: seq<Node>)
    ensures |r| == |nodes|
  {
    seq(|nodes|, id requires 0 <= id < |nodes| => Node(Stepped(nodes, wires, id).0, nodes[id].step))
  }

  /**
   * The inputs of a node: one for every port up to the last that an earlier node is wired to, the block of that
   * node where there is one, and zeros elsewhere.
   */
  ghost predicate Feeds(outputs: seq<Block>, wires: Wires, id: nat, inputs: seq<Block>) {
    && id < |wires| && id <= |outputs|
    && (forall p :: |inputs| <= p < |wires[id]| && p < 8 && wires[id][p].Some? ==> wires[id][p].value >= id)
    && (inputs != [] ==>
          && |inputs| <= 8 && |inputs| <= |wires[id]|
          && wires[id][|inputs| - 1].Some? && wires[id][|inputs| - 1].value < id)
    && (forall p :: 0 <= p < |inputs| ==>
          if wires[id][p].Some? && wires[id][p].value < id then inputs[p] == outputs[wires[id][p].value]
          else forall i :: 0 <= i < |inputs[p]| ==> inputs[p][i] == 0.0)
  }

  /**
   * Every node keeps its step, and has the state and the output that this makes of its old state and of the inputs
   * that the outputs of this pass feed to it.
   */
  ghost predicate IsPass(was: seq<Node>, nodes: seq<Node>, wires: Wires, outputs: seq<Block>) {
    && |nodes| == |was| == |outputs|
    && forall id :: 0 <= id < |was| ==>
         && nodes[id].step == was[id].step
         && exists inputs :: Feeds(outputs, wires, id, inputs)
              && (nodes[id].state, outputs[id]) == was[id].step(was[id].state, inputs)
  }

  /** What a pass puts out: the block of the last node. */
  function LastBlock(nodes: seq<Node>, wires: Wires): Block {
    if nodes == [] then Silence() else Stepped(nodes, wires, |nodes| - 1).1
  }

  // ----- the graph

  class Graph {
    var nodes: seq<Node>
    var connections: Wires
    var outputs: seq<Block>

    ghost predicate Valid()
      reads this
    {
      |connections| == |nodes| == |outputs|
    }

    constructor ()
      ensures Valid() && nodes == [] && connections == []
    {
      nodes, connections, outputs := [], [], [];
    }

    method AddNode(node: Node) returns (id: nat)
      requires Valid()
      modifies this
      ensures Valid() && id == |old(nodes)|
      ensures nodes == old(nodes) + [node] && connections == old(connections) + [[]]
    {
      id := |nodes|;
      nodes, outputs, connections := nodes + [node], outputs + [Silence()], connections + [[]];
    }

    /** Wires an output to an input port. Ports out of range and unknown nodes make the source panic. */
    method Connect(src: nat, dst: nat, port: nat)
      requires Valid() && port < MAX_INPUTS && src < |nodes| && dst < |nodes|
      modifies this
      ensures Valid() && nodes == old(nodes)
      ensures connections == old(connections)[dst := Rewired(old(connections)[dst], port, src)]
    {
      var inputs := connections[dst];
      if |inputs| <= port {
        inputs := inputs + seq(port + 1 - |inputs|, _ => None);
      }
      assert inputs[port := Some(src)] == Rewired(connections[dst], port, src);
      connections := connections[dst := inputs[port := Some(src)]];
    }

    /** The inputs of a node, collected from the outputs written so far in this pass. */
    method CollectInputs(ghost was: seq<Node>, id: nat, past: seq<Block>) returns (inputs: seq<Block>)
      requires Valid() && id < |nodes| == |was| && |past| == id && past == OutputsOf(was, connections, id)
      ensures inputs == Inputs(was, connections, id)
    {
      hide Stepped, Ports;
      var refs: seq<Block> := seq(MAX_INPUTS, _ => Silence());
      var maxInputIndex := 0;
      var inputMap := connections[id];
      for port := 0 to if |inputMap| < MAX_INPUTS then |inputMap| else MAX_INPUTS
        invariant |refs| == MAX_INPUTS && maxInputIndex <= port
        invariant forall p :: 0 <= p < MAX_INPUTS ==>
                    refs[p] == if p < port && IsWired(connections, id, p)
                        then Stepped(was, connections, connections[id][p].value).1 else Silence()
        invariant forall p :: maxInputIndex <= p < port ==> !IsWired(connections, id, p)
        invariant maxInputIndex > 0 ==> IsWired(connections, id, maxInputIndex - 1)
      {
        if inputMap[port].Some? && inputMap[port].value < id {
          refs := refs[port := past[inputMap[port].value]];
          maxInputIndex := port + 1;
        }
      }
      PortsAre(connections, id, maxInputIndex);
      inputs := refs[..maxInputIndex];
    }

    /**
     * One pass: every node steps once, in the order of adding. What it computes does not depend on
     * the old contents of the output buffers, which the specification does not mention.
     */
    method Process() returns (block: Block)
      requires Valid()
      modifies this
      ensures Valid() && connections == old(connections)
      ensures IsPass(old(nodes), nodes, connections, outputs)
      ensures if nodes == [] then forall i :: 0 <= i < |block| ==> block[i] == 0.0 else block == outputs[|nodes| - 1]
      ensures nodes == Passed(old(nodes), connections)
      ensures outputs == OutputsOf(old(nodes), connections, |nodes|)
      ensures block == LastBlock(old(nodes), connections)
    {
      hide Stepped, Inputs, LastBlock, IsPass;
      ghost var was := nodes;
      for id := 0 to |nodes|
        invariant Valid() && |nodes| == |was| && connections == old(connections)
        invariant forall j :: 0 <= j < |was| ==> nodes[j] == if j < id then Passed(was, connections)[j] else was[j]
        invariant outputs[..id] == OutputsOf(was, connections, id)
      {
        var inputs := CollectInputs(was, id, outputs[..id]);
        SteppedIs(was, connections, id);
        var (state, output) := nodes[id].step(nodes[id].state, inputs);
        nodes := nodes[id := nodes[id].(state := state)];
        outputs := outputs[id := output];
        assert outputs[..id + 1] == outputs[..id] + [output];
      }
      assert outputs[..|outputs|] == outputs;
      LastBlockIs(was, connections);
      assert nodes == Passed(was, connections) && outputs == OutputsOf(was, connections, |was|);
      PassSteps(was, connections);
      block := if outputs == [] then Silence() else outputs[|outputs| - 1];
    }
  }

  lemma {:induction false} PortsUnique(wires: Wires, id: nat, limit: nat, n: nat)
    requires n <= limit && (n > 0 ==> IsWired(wires, id, n - 1)) && forall p :: n <= p < limit ==>
               !IsWired(wires, id, p)
    ensures Ports(wires, id, limit) == n
    decreases limit
  {
    if limit > n {
      assert !IsWired(wires, id, limit - 1);
      PortsUnique(wires, id, limit - 1, n);
    }
  }

  lemma PortsAre(wires: Wires, id: nat, n: nat)
    requires id < |wires| && n <= MAX_INPUTS && (n > 0 ==> IsWired(wires, id, n - 1))
    requires forall p :: n <= p < |wires[id]| && p < MAX_INPUTS ==> !IsWired(wires, id, p)
    ensures Ports(wires, id, MAX_INPUTS) == n
  {
    PortsUnique(wires, id, MAX_INPUTS, n);
  }

  lemma SteppedIs(nodes: seq<Node>, wires: Wires, id: nat)
    requires id < |nodes|
    ensures Stepped(nodes, wires, id) == nodes[id].step(nodes[id].state, Inputs(nodes, wires, id))
  {
  }

  lemma PassedAt(nodes: seq<Node>, wires: Wires, id: nat)
    requires id < |nodes|
    ensures Passed(nodes, wires)[id].step == nodes[id].step
    ensures (Passed(nodes, wires)[id].state, OutputsOf(nodes, wires, |nodes|)[id]) == Stepped(nodes, wires, id)
  {
    hide Stepped;
  }

  lemma InputsFeed(nodes: seq<Node>, wires: Wires, id: nat)
    requires id < |nodes| == |wires|
    ensures Feeds(OutputsOf(nodes, wires, |nodes|), wires, id, Inputs(nodes, wires, id))
  {
    hide Stepped;
    var n, inputs := Ports(wires, id, MAX_INPUTS), Inputs(nodes, wires, id);
    forall p | n <= p < |wires[id]| && p < MAX_INPUTS && wires[id][p].Some?
      ensures wires[id][p].value >= id
    {
      assert !IsWired(wires, id, p);
    }
    assert n > 0 ==> IsWired(wires, id, n - 1);
    forall p | 0 <= p < n && !(wires[id][p].Some? && wires[id][p].value < id)
      ensures inputs[p] == Silence()
    {
      assert !IsWired(wires, id, p);
    }
  }

  lemma PassSteps(nodes: seq<Node>, wires: Wires)
    requires |wires| == |nodes|
    ensures IsPass(nodes, Passed(nodes, wires), wires, OutputsOf(nodes, wires, |nodes|))
  {
    hide Stepped, Inputs, Feeds;
    forall id | 0 <= id < |nodes|
      ensures var (after, outputs) := (Passed(nodes, wires), OutputsOf(nodes, wires, |nodes|));
              && after[id].step == nodes[id].step
              && exists inputs :: Feeds(outputs, wires, id, inputs)
                   && (after[id].state, outputs[id]) == nodes[id].step(nodes[id].state, inputs)
    {
      InputsFeed(nodes, wires, id);
      SteppedIs(nodes, wires, id);
      PassedAt(nodes, wires, id);
    }
  }

  lemma LastBlockIs(nodes: seq<Node>, wires: Wires)
    ensures LastBlock(nodes, wires) == if nodes == [] then Silence() else Stepped(nodes, wires, |nodes| - 1).1
  {
  }

  /** The ports of a node after one was wired: as many as needed, the others as they were. */
  function Rewired(inputs: seq<Option<nat>>, port: nat, src: nat): (r: seq<Option<nat>>)
    ensures |r| == if |inputs| > port then |inputs| else port + 1
    ensures forall p :: 0 <= p < |r| ==>
              r[p] == if p == port then Some(src) else if p < |inputs| then inputs[p] else None
  {
    seq(if |inputs| > port then |inputs| else port + 1, p requires 0 <= p =>
      if p == port then Some(src) else if p < |inputs| then inputs[p] else None)
  }

  // ----- what wiring can change

  /** Two graphs that agree before node `d`. */
  ghost predicate AgreeBelow(a: seq<Node>, b: seq<Node>, wa: Wires, wb: Wires, d: nat) {
    && d <= |a| && d <= |b| && d <= |wa| && d <= |wb|
    && forall i :: 0 <= i < d ==> a[i] == b[i] && wa[i] == wb[i]
  }

  lemma {:induction false} SamePorts(wa: Wires, wb: Wires, id: nat, limit: nat)
    requires id < |wa| && id < |wb| && wa[id] == wb[id]
    ensures Ports(wa, id, limit) == Ports(wb, id, limit)
    decreases limit
  {
    if limit > 0 {
      SamePorts(wa, wb, id, limit - 1);
    }
  }

  lemma {:induction false} SteppedBelow(a: seq<Node>, b: seq<Node>, wa: Wires, wb: Wires, d: nat, id: nat)
    requires AgreeBelow(a, b, wa, wb, d) && id < d
    ensures Stepped(a, wa, id) == Stepped(b, wb, id)
    decreases id
  {
    SamePorts(wa, wb, id, MAX_INPUTS);
    forall p | 0 <= p < MAX_INPUTS && IsWired(wa, id, p)
      ensures Stepped(a, wa, wa[id][p].value) == Stepped(b, wb, wb[id][p].value)
    {
      SteppedBelow(a, b, wa, wb, d, wa[id][p].value);
    }
    assert Inputs(a, wa, id) == Inputs(b, wb, id);
  }

  function Passes(nodes: seq<Node>, wires: Wires, k: nat): (r: seq<Node>)
    ensures |r| == |nodes|
  {
    if k == 0 then nodes else Passed(Passes(nodes, wires, k - 1), wires)
  }

  /**
   * Wiring into node `d`, or adding nodes after it, leaves every output of the nodes below `d`
   * unchanged, in this pass and in all that follow.
   */
  lemma {:induction false} WiringIsLocal(a: seq<Node>, b: seq<Node>, wa: Wires, wb: Wires, d: nat, k: nat)
    requires AgreeBelow(a, b, wa, wb, d)
    ensures AgreeBelow(Passes(a, wa, k), Passes(b, wb, k), wa, wb, d)
    ensures forall id :: 0 <= id < d ==> Stepped(Passes(a, wa, k), wa, id) == Stepped(Passes(b, wb, k), wb, id)
    decreases k
  {
    if k > 0 {
      WiringIsLocal(a, b, wa, wb, d, k - 1);
    }
    forall id | 0 <= id < d
      ensures Stepped(Passes(a, wa, k), wa, id) == Stepped(Passes(b, wb, k), wb, id)
    {
      SteppedBelow(Passes(a, wa, k), Passes(b, wb, k), wa, wb, d, id);
    }
  }

  /** The state of a node without inputs after `k` of its own steps. */
  function Iterated(node: Node, k: nat): State {
    if k == 0 then node.state else node.step(Iterated(node, k - 1), []).0
  }

  /** Over any number of passes a node without wires takes one step of its own in each, whatever the others do. */
  lemma {:induction false} SourceIterates(nodes: seq<Node>, wires: Wires, id: nat, k: nat)
    requires id < |nodes| && (id < |wires| ==> wires[id] == [])
    ensures Passes(nodes, wires, k)[id] == Node(Iterated(nodes[id], k), nodes[id].step)
    ensures OutputsOf(Passes(nodes, wires, k), wires, |nodes|)[id] == nodes[id].step(Iterated(nodes[id], k), []).1
  {
    if k > 0 {
      SourceIterates(nodes, wires, id, k - 1);
      SourceSteps(Passes(nodes, wires, k - 1), wires, id);
    }
    SourceSteps(Passes(nodes, wires, k), wires, id);
  }

  lemma SourceSteps(nodes: seq<Node>, wires: Wires, id: nat)
    requires id < |nodes| && (id < |wires| ==> wires[id] == [])
    ensures Stepped(nodes, wires, id) == nodes[id].step(nodes[id].state, [])
    ensures Passed(nodes, wires)[id] == Node(nodes[id].step(nodes[id].state, []).0, nodes[id].step)
  {
    assert Inputs(nodes, wires, id) == [];
  }
}
