/** The view of a TensorFlow Lite graph that GraphInfo gives (tensorflow/lite/graph_info.h). */
module TfliteGraph {

  /** kTfLiteOptionalTensor: an input that is not there. */
  const OPTIONAL := -1

  /** The allocation types the arena planner tells apart. */
  datatype AllocationType = ArenaRw | ArenaRwPersistent | Elsewhere

  datatype Tensor = Tensor(kind: AllocationType, bytes: nat)

  datatype Node = Node(inputs: seq<int>, outputs: seq<int>, temporaries: seq<int>, sideEffect: bool)

  /** `nodes` is the execution plan; `nodeIndex[i]` is the original index of its i-th node. */
  datatype Graph = Graph(tensors: seq<Tensor>, nodes: seq<Node>, nodeIndex: seq<nat>,
                         inputs: seq<int>, outputs: seq<int>, variables: seq<int>)

  predicate IsTensor(g: Graph, t: int) { 0 <= t < |g.tensors| }

  predicate Reads(g: Graph, i: nat, t: int)
    requires i < |g.nodes|
  {
    t != OPTIONAL && t in g.nodes[i].inputs
  }

  predicate Produces(g: Graph, i: nat, t: int)
    requires i < |g.nodes|
  {
    t in g.nodes[i].outputs
  }

  predicate AllIn(s: seq<int>, n: nat) {
    forall t :: t in s ==> 0 <= t < n
  }

  ghost predicate AllInOrOptional(s: seq<int>, n: nat) {
    forall t :: t in s ==> t == OPTIONAL || 0 <= t < n
  }

  /** Indices in node and graph lists are tensor indices; only inputs may be optional. */
  ghost predicate IndicesOk(g: Graph) {
    && (forall i :: 0 <= i < |g.nodes| ==>
          AllInOrOptional(g.nodes[i].inputs, |g.tensors|) && AllIn(g.nodes[i].outputs, |g.tensors|))
    && AllInOrOptional(g.inputs, |g.tensors|)
    && AllIn(g.outputs, |g.tensors|)
    && AllIn(g.variables, |g.tensors|)
  }

  /** No tensor is written by two nodes, nor twice by one. */
  ghost predicate UniqueProducers(g: Graph) {
    && (forall i, j, t :: 0 <= i < |g.nodes| && 0 <= j < |g.nodes| && Produces(g, i, t) && Produces(g, j, t)
          ==> i == j)
    && (forall i :: 0 <= i < |g.nodes| ==> NoRepeats(g.nodes[i].outputs))
  }

  ghost predicate NoRepeats(s: seq<int>) {
    forall i, j :: 0 <= i < j < |s| ==> s[i] != s[j]
  }

  /** A node reads only what earlier nodes, or no node at all, produce. */
  ghost predicate Topological(g: Graph) {
    forall i, j, t :: 0 <= i < |g.nodes| && 0 <= j < |g.nodes| && Reads(g, i, t) && Produces(g, j, t) ==> j < i
  }
}
