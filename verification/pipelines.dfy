/** The pipeline builders: the simplex and the stereo-duplex pipeline are
    each a linear chain of nodes appended to a descriptor, wired to one
    another in data-flow order, and optionally hung between an existing
    source node and an existing sink node.

    A descriptor is modelled as the list of node settings in the order the
    nodes were added (a node's handle is its index) and the list of edges in
    the order they were recorded.  The descriptor's own handle validation is
    not part of this model: edges are recorded as given. */
module Pipelines {
  import opened Common

  const InvalidNodeHandle: int := -1
  const SimplexBatchTimeoutMs: nat := 100
  const StereoBatchTimeoutMs: nat := 5000
  const PairMapPairingThreads: nat := 2

  datatype SampleType = Dna | Rna

  /** The splitter a read-split node runs: the RNA splitter with default
      settings, or the duplex splitter, told whether the model scales to
      picoamperes and whether it runs in simplex mode. */
  datatype Splitter = RnaSplitter | DuplexSplitter(picoampereScaling: bool, simplexMode: bool)

  /** Which pairing input the stereo pipeline was given: search settings
      (whose contents the builder only passes on) or an explicit map from
      template to complement read ids. */
  datatype PairingParameters = PairBySearch | PairByMap(pairs: map<string, string>)

  /** The settings each kind of node is created with. */
  datatype Node =
    | ReadSplit(splitter: Splitter, threads: int)
    | Scaler(sampleType: SampleType, threads: int)
    | Basecaller(overlap: nat, batchTimeoutMs: nat, readGroup: string, nodeName: string, meanQScoreStartPos: nat)
    | ModBaseCaller(threads: int, stride: int)
    | StereoDuplexEncoder(stride: int)
    | Pairing(parameters: PairingParameters, threads: int)

  datatype Edge = Edge(from: int, to: int)

  datatype Descriptor = Descriptor(nodes: seq<Node>, edges: seq<Edge>)

  /** What the builders read from the front runner of a model: the model's
      directory name, its stride, its sample type, whether it is an RNA
      model and whether its signal is scaled to picoamperes. */
  datatype ModelConfig = ModelConfig(name: string, stride: nat, sampleType: SampleType, isRna: bool, picoampereScaling: bool)

  // ------------------------------------------------------------ overlap

  /** The overlap rounded down to a multiple of the model stride: the
      largest multiple of the stride not above the overlap. */
  function AdjustOverlap(overlap: nat, stride: nat): (r: nat)
    requires stride > 0
    ensures r % stride == 0
    ensures r <= overlap && overlap - r < stride
    ensures overlap % stride == 0 ==> r == overlap
  {
    DivisionSplits(overlap, stride);
    MultipleOfStride(overlap / stride, stride);
    (overlap / stride) * stride
  }

  /** A number is its quotient times the divisor plus its remainder. */
  lemma DivisionSplits(n: nat, stride: nat)
    requires stride > 0
    ensures n == (n / stride) * stride + n % stride
    ensures 0 <= n % stride < stride
  {
  }

  /** A multiple of the stride leaves no remainder and divides back. */
  lemma MultipleOfStride(q: nat, stride: nat)
    requires stride > 0
    ensures (q * stride) % stride == 0
    ensures (q * stride) / stride == q
  {
    var x := q * stride;
    DivisionSplits(x, stride);
    var k := q - x / stride;
    assert x % stride == k * stride;
  }

  /** Rounding an already rounded overlap changes nothing. */
  lemma AdjustOverlapIdempotent(overlap: nat, stride: nat)
    requires stride > 0
    ensures AdjustOverlap(AdjustOverlap(overlap, stride), stride) == AdjustOverlap(overlap, stride)
  {
  }

  /** The rounded overlap is the only multiple of the stride within one
      stride below the overlap. */
  lemma AdjustOverlapUnique(overlap: nat, stride: nat, k: nat)
    requires stride > 0
    requires k % stride == 0 && k <= overlap && overlap - k < stride
    ensures k == AdjustOverlap(overlap, stride)
  {
    var r := AdjustOverlap(overlap, stride);
    if k < r {
      MultiplesApart(k, r, stride);
    } else if r < k {
      MultiplesApart(r, k, stride);
    }
  }

  /** Two distinct multiples of the stride are at least a stride apart. */
  lemma MultiplesApart(a: nat, b: nat, stride: nat)
    requires stride > 0 && a % stride == 0 && b % stride == 0 && a < b
    ensures b - a >= stride
  {
    DivisionSplits(a, stride);
    DivisionSplits(b, stride);
    var qa, qb := a / stride, b / stride;
    if qb <= qa {
      MultiplyMonotone(qb, qa, stride);
    }
    MultiplyMonotone(1, qb - qa, stride);
    assert b - a == (qb - qa) * stride;
  }

  lemma MultiplyMonotone(x: nat, y: nat, stride: nat)
    requires x <= y
    ensures x * stride <= y * stride
  {
  }

  // ---------------------------------------------------------- descriptor

  /** Appends a node whose output goes to each of `sinks`; its handle is
      the number of nodes before it. */
  function AddNode(d: Descriptor, node: Node, sinks: seq<int>): (r: (Descriptor, nat))
    ensures r.1 == |d.nodes|
    ensures r.0.nodes == d.nodes + [node]
    ensures r.0.edges == d.edges + seq(|sinks|, i requires 0 <= i < |sinks| => Edge(r.1, sinks[i]))
    ensures |sinks| == 0 ==> r.0.edges == d.edges
    ensures |sinks| == 1 ==> r.0.edges == d.edges + [Edge(r.1, sinks[0])]
  {
    (Descriptor(d.nodes + [node], d.edges + seq(|sinks|, i requires 0 <= i < |sinks| => Edge(|d.nodes|, sinks[i]))),
     |d.nodes|)
  }

  /** Records that `from`'s output goes to `to`. */
  function AddSink(d: Descriptor, from: int, to: int): (r: Descriptor)
    ensures r.nodes == d.nodes && r.edges == d.edges + [Edge(from, to)]
  {
    d.(edges := d.edges + [Edge(from, to)])
  }

  // ------------------------------------------------- the chain reference

  /** The edges linking each handle of `flow` to the next. */
  function ChainEdges(flow: seq<int>): seq<Edge>
  {
    if |flow| == 0 then [] else seq(|flow| - 1, i requires 0 <= i < |flow| - 1 => Edge(flow[i], flow[i + 1]))
  }

  /** The handles `start`, `start + 1`, ..., `start + n - 1`. */
  function Handles(start: nat, n: nat): (r: seq<int>)
    ensures |r| == n
    ensures forall i :: 0 <= i < n ==> r[i] == start + i
  {
    seq(n, i => start + i)
  }

  /** The edges joining a chain from `first` to `last` to the given source
      and sink, each only when its handle is valid. */
  function Ends(first: int, last: int, source: int, sink: int): seq<Edge>
  {
    (if source != InvalidNodeHandle then [Edge(source, first)] else [])
    + (if sink != InvalidNodeHandle then [Edge(last, sink)] else [])
  }

  /** Links the source, when given, to the first node of a chain and its
      last node to the sink, when given. */
  function ConnectEnds(d: Descriptor, first: int, last: int, source: int, sink: int): (r: Descriptor)
    ensures r.nodes == d.nodes && r.edges == d.edges + Ends(first, last, source, sink)
  {
    var withSource := if source != InvalidNodeHandle then AddSink(d, source, first) else d;
    if sink != InvalidNodeHandle then AddSink(withSource, last, sink) else withSource
  }

  /** The nodes `stages` are appended to `d`'s nodes, the one at `flow[i]`
      with the settings `stages[i]`, each at its own handle. */
  predicate NodesLaidOut(d: Descriptor, r: Descriptor, flow: seq<int>, stages: seq<Node>)
  {
    && |flow| == |stages| > 0
    && |r.nodes| == |d.nodes| + |stages|
    && r.nodes[..|d.nodes|] == d.nodes
    && (forall i :: 0 <= i < |flow| ==> |d.nodes| <= flow[i] < |r.nodes| && r.nodes[flow[i]] == stages[i])
    && (forall i, j :: 0 <= i < j < |flow| ==> flow[i] != flow[j])
  }

  /** The edges added to `d` are exactly the links along `flow` and the
      links to the source and sink, in some order. */
  predicate EdgesLaidOut(d: Descriptor, r: Descriptor, flow: seq<int>, source: int, sink: int)
    requires |flow| > 0
  {
    && |r.edges| >= |d.edges|
    && r.edges[..|d.edges|] == d.edges
    && multiset(r.edges[|d.edges|..]) == multiset(ChainEdges(flow) + Ends(flow[0], flow[|flow| - 1], source, sink))
  }

  /** `r` is `d` with the nodes `stages` appended, in some order of
      addition, and wired as one chain: `flow` lists the new handles in
      data-flow order, the node at `flow[i]` has the settings `stages[i]`,
      and the new edges are exactly the links along `flow` and the links to
      the source and sink. */
  predicate IsChain(d: Descriptor, r: Descriptor, flow: seq<int>, stages: seq<Node>, source: int, sink: int)
  {
    NodesLaidOut(d, r, flow, stages) && EdgesLaidOut(d, r, flow, source, sink)
  }

  // ------------------------------------------------------------- simplex

  /** The simplex pipeline's nodes in data-flow order: the RNA splitter
      when splitting is enabled for an RNA model, the scaler, the
      basecaller, the duplex splitter in simplex mode when splitting is
      enabled for a DNA model, and the modified-base caller when there are
      modified-base runners. */
  function SimplexStages(model: ModelConfig, modbaseRunners: nat, overlap: nat, meanQScoreStartPos: nat,
                         scalerThreads: int, enableSplitter: bool, splitterThreads: int, modbaseThreads: int): seq<Node>
    requires model.stride > 0
  {
    (if enableSplitter && model.isRna then [ReadSplit(RnaSplitter, splitterThreads)] else [])
    + [Scaler(model.sampleType, scalerThreads),
       Basecaller(AdjustOverlap(overlap, model.stride), SimplexBatchTimeoutMs, model.name, "BasecallerNode", meanQScoreStartPos)]
    + (if enableSplitter && !model.isRna then [ReadSplit(DuplexSplitter(model.picoampereScaling, true), splitterThreads)] else [])
    + (if modbaseRunners > 0 then [ModBaseCaller(modbaseThreads, model.stride)] else [])
  }

  /** `r` is `d` with the nodes `built` appended and linked one to the
      next, in the order added; `current` is the last of them. */
  predicate Partial(d: Descriptor, r: Descriptor, built: seq<Node>, current: int)
  {
    && |built| > 0
    && r.nodes == d.nodes + built
    && r.edges == d.edges + ChainEdges(Handles(|d.nodes|, |built|))
    && current == |d.nodes| + |built| - 1
  }

  /** Linking a further node to the last one of a chain extends it. */
  lemma ChainEdgesSnoc(flow: seq<int>, next: int)
    requires |flow| > 0
    ensures ChainEdges(flow + [next]) == ChainEdges(flow) + [Edge(flow[|flow| - 1], next)]
  {
    var extended := flow + [next];
    var longer := ChainEdges(extended);
    var shorter := ChainEdges(flow) + [Edge(flow[|flow| - 1], next)];
    assert |longer| == |shorter|;
    forall i | 0 <= i < |longer|
      ensures longer[i] == shorter[i]
    {
      assert extended[i] == flow[i];
      if i + 1 < |flow| {
        assert extended[i + 1] == flow[i + 1];
      }
    }
  }

  lemma StartChain(d: Descriptor, node: Node)
    ensures Partial(d, AddNode(d, node, []).0, [node], |d.nodes|)
  {
  }

  lemma ExtendChain(d: Descriptor, r: Descriptor, built: seq<Node>, current: int, node: Node)
    requires Partial(d, r, built, current)
    ensures var (r', h) := AddNode(r, node, []);
            h == current + 1 && Partial(d, AddSink(r', current, h), built + [node], h)
  {
    var flow := Handles(|d.nodes|, |built|);
    assert Handles(|d.nodes|, |built| + 1) == flow + [|d.nodes| + |built|];
    ChainEdgesSnoc(flow, |d.nodes| + |built|);
  }

  /** A finished chain, hung between the source and the sink, is a chain in
      the sense of `IsChain` with its handles in the order added. */
  lemma FinishChain(d: Descriptor, r: Descriptor, built: seq<Node>, last: int, source: int, sink: int)
    requires Partial(d, r, built, last)
    ensures IsChain(d, ConnectEnds(r, |d.nodes|, last, source, sink), Handles(|d.nodes|, |built|), built, source, sink)
  {
    var r' := ConnectEnds(r, |d.nodes|, last, source, sink);
    SequentialNodesLaidOut(d, r', built);
    SequentialEdgesLaidOut(d, r, built, last, source, sink);
  }

  lemma SequentialNodesLaidOut(d: Descriptor, r: Descriptor, built: seq<Node>)
    requires |built| > 0 && r.nodes == d.nodes + built
    ensures NodesLaidOut(d, r, Handles(|d.nodes|, |built|), built)
  {
    AppendSplits(d.nodes, built);
    AppendedAlongHandles(d.nodes, built);
    HandlesDistinct(|d.nodes|, |built|);
  }

  /** The elements appended to `front` sit at the handles counted from
      `|front|`. */
  lemma AppendedAlongHandles<T>(front: seq<T>, built: seq<T>)
    ensures var flow, all := Handles(|front|, |built|), front + built;
            forall i :: 0 <= i < |flow| ==> |front| <= flow[i] < |all| && all[flow[i]] == built[i]
  {
    var flow, all := Handles(|front|, |built|), front + built;
    forall i | 0 <= i < |flow|
      ensures |front| <= flow[i] < |all| && all[flow[i]] == built[i]
    {
      assert flow[i] == |front| + i;
    }
  }

  /** The front of `a + c` is `a`, and `c`'s elements follow it. */
  lemma AppendSplits<T>(a: seq<T>, c: seq<T>)
    ensures (a + c)[..|a|] == a
    ensures forall i :: 0 <= i < |c| ==> (a + c)[|a| + i] == c[i]
  {
  }

  lemma HandlesDistinct(start: nat, n: nat)
    ensures var flow := Handles(start, n);
            forall i, j :: 0 <= i < j < n ==> flow[i] != flow[j]
  {
  }

  lemma SequentialEdgesLaidOut(d: Descriptor, r: Descriptor, built: seq<Node>, last: int, source: int, sink: int)
    requires Partial(d, r, built, last)
    ensures EdgesLaidOut(d, ConnectEnds(r, |d.nodes|, last, source, sink), Handles(|d.nodes|, |built|), source, sink)
  {
    var flow := Handles(|d.nodes|, |built|);
    var r' := ConnectEnds(r, |d.nodes|, last, source, sink);
    assert flow[0] == |d.nodes| && flow[|flow| - 1] == last;
    var ends := Ends(flow[0], flow[|flow| - 1], source, sink);
    assert r'.edges == d.edges + (ChainEdges(flow) + ends);
    assert r'.edges[..|d.edges|] == d.edges;
    assert r'.edges[|d.edges|..] == ChainEdges(flow) + ends;
  }

  /** Builds the simplex pipeline onto `d`, keeping handles of the first
      and the last node and of the node the next one is linked from. */
  method CreateSimplex(d: Descriptor, model: ModelConfig, modbaseRunners: nat, overlap: nat, meanQScoreStartPos: nat,
                       scalerThreads: int, enableSplitter: bool, splitterThreads: int, modbaseThreads: int,
                       sink: int, source: int)
    returns (r: Descriptor)
    requires model.stride > 0
    ensures var stages := SimplexStages(model, modbaseRunners, overlap, meanQScoreStartPos,
                                        scalerThreads, enableSplitter, splitterThreads, modbaseThreads);
            IsChain(d, r, Handles(|d.nodes|, |stages|), stages, source, sink)
  {
    var adjusted := AdjustOverlap(overlap, model.stride);
    var first := InvalidNodeHandle;
    var last := InvalidNodeHandle;
    var current := InvalidNodeHandle;
    r := d;
    ghost var built: seq<Node> := [];

    if enableSplitter && model.isRna {
      var node := ReadSplit(RnaSplitter, splitterThreads);
      StartChain(d, node);
      var (r0, rnaSplitter) := AddNode(r, node, []);
      r, first, current := r0, rnaSplitter, rnaSplitter;
      built := [node];
    }

    var scalerSettings := Scaler(model.sampleType, scalerThreads);
    if current != InvalidNodeHandle {
      ExtendChain(d, r, built, current, scalerSettings);
    } else {
      StartChain(d, scalerSettings);
    }
    var (r1, scaler) := AddNode(r, scalerSettings, []);
    r := r1;
    if current != InvalidNodeHandle {
      r := AddSink(r, current, scaler);
    } else {
      first := scaler;
    }
    current := scaler;
    built := built + [scalerSettings];

    var basecallerSettings := Basecaller(adjusted, SimplexBatchTimeoutMs, model.name, "BasecallerNode", meanQScoreStartPos);
    ExtendChain(d, r, built, current, basecallerSettings);
    var (r2, basecaller) := AddNode(r, basecallerSettings, []);
    r := AddSink(r2, current, basecaller);
    current, last := basecaller, basecaller;
    built := built + [basecallerSettings];

    if enableSplitter && !model.isRna {
      var splitterSettings := ReadSplit(DuplexSplitter(model.picoampereScaling, true), splitterThreads);
      ExtendChain(d, r, built, current, splitterSettings);
      var (r3, splitter) := AddNode(r, splitterSettings, []);
      r := AddSink(r3, current, splitter);
      current, last := splitter, splitter;
      built := built + [splitterSettings];
    }

    if modbaseRunners > 0 {
      var modbaseSettings := ModBaseCaller(modbaseThreads, model.stride);
      ExtendChain(d, r, built, current, modbaseSettings);
      var (r4, modbase) := AddNode(r, modbaseSettings, []);
      r := AddSink(r4, current, modbase);
      current, last := modbase, modbase;
      built := built + [modbaseSettings];
    }

    assert first == |d.nodes|;
    assert built == SimplexStages(model, modbaseRunners, overlap, meanQScoreStartPos,
                                  scalerThreads, enableSplitter, splitterThreads, modbaseThreads);
    FinishChain(d, r, built, last, source, sink);
    r := ConnectEnds(r, first, last, source, sink);
  }

  /** The RNA splitter is the first simplex node exactly when splitting is
      enabled for an RNA model; otherwise the scaler is. */
  lemma SimplexFirstNode(model: ModelConfig, modbaseRunners: nat, overlap: nat, meanQScoreStartPos: nat,
                         scalerThreads: int, enableSplitter: bool, splitterThreads: int, modbaseThreads: int)
    requires model.stride > 0
    ensures var stages := SimplexStages(model, modbaseRunners, overlap, meanQScoreStartPos,
                                        scalerThreads, enableSplitter, splitterThreads, modbaseThreads);
            && (stages[0] == ReadSplit(RnaSplitter, splitterThreads) <==> enableSplitter && model.isRna)
            && (!(enableSplitter && model.isRna) ==> stages[0] == Scaler(model.sampleType, scalerThreads))
  {
  }

  /** The scaler always feeds the basecaller, and a duplex splitter
      follows the basecaller exactly when splitting is enabled for a DNA
      model. */
  lemma SimplexScalerFeedsBasecaller(model: ModelConfig, modbaseRunners: nat, overlap: nat, meanQScoreStartPos: nat,
                                     scalerThreads: int, enableSplitter: bool, splitterThreads: int, modbaseThreads: int)
    requires model.stride > 0
    ensures var stages := SimplexStages(model, modbaseRunners, overlap, meanQScoreStartPos,
                                        scalerThreads, enableSplitter, splitterThreads, modbaseThreads);
            var k := if enableSplitter && model.isRna then 1 else 0;
            && stages[k].Scaler? && stages[k + 1].Basecaller?
            && stages[k + 1].overlap == AdjustOverlap(overlap, model.stride)
            && ((k + 2 < |stages| && stages[k + 2].ReadSplit?) <==> enableSplitter && !model.isRna)
  {
  }

  /** A modified-base caller is present exactly when there are
      modified-base runners, and it is then the last node. */
  lemma SimplexModBaseLast(model: ModelConfig, modbaseRunners: nat, overlap: nat, meanQScoreStartPos: nat,
                           scalerThreads: int, enableSplitter: bool, splitterThreads: int, modbaseThreads: int)
    requires model.stride > 0
    ensures var stages := SimplexStages(model, modbaseRunners, overlap, meanQScoreStartPos,
                                        scalerThreads, enableSplitter, splitterThreads, modbaseThreads);
            && ((exists i :: 0 <= i < |stages| && stages[i].ModBaseCaller?) <==> modbaseRunners > 0)
            && (modbaseRunners > 0 ==> stages[|stages| - 1] == ModBaseCaller(modbaseThreads, model.stride))
  {
    var stages := SimplexStages(model, modbaseRunners, overlap, meanQScoreStartPos,
                                scalerThreads, enableSplitter, splitterThreads, modbaseThreads);
    if modbaseRunners > 0 {
      assert stages[|stages| - 1].ModBaseCaller?;
    }
  }

  // -------------------------------------------------------- stereo duplex

  /** The number of worker threads the pairing node gets: all hardware
      threads with search settings, two with a pair map. */
  function PairingThreads(parameters: PairingParameters, hardwareThreads: nat): (n: nat)
    ensures parameters.PairBySearch? ==> n == hardwareThreads
    ensures parameters.PairByMap? ==> n == PairMapPairingThreads
  {
    match parameters
    case PairBySearch => hardwareThreads
    case PairByMap(_) => PairMapPairingThreads
  }

  /** The read group of stereo calls: the simplex model's name, an
      underscore, and the stereo model's name. */
  function DuplexReadGroup(model: ModelConfig, stereoModel: ModelConfig): (g: string)
    ensures |g| == |model.name| + 1 + |stereoModel.name|
    ensures g[..|model.name|] == model.name && g[|model.name|] == '_'
    ensures g[|model.name| + 1..] == stereoModel.name
  {
    model.name + "_" + stereoModel.name
  }

  /** The stereo pipeline's nodes in data-flow order: scaler (always on
      DNA samples), simplex basecaller, duplex splitter, pairing node,
      stereo encoder with the simplex stride, stereo basecaller, and the
      modified-base caller when there are modified-base runners. */
  function StereoStages(model: ModelConfig, stereoModel: ModelConfig, modbaseRunners: nat, overlap: nat,
                        meanQScoreStartPos: nat, scalerThreads: int, splitterThreads: int, modbaseThreads: int,
                        pairing: PairingParameters, hardwareThreads: nat): seq<Node>
    requires model.stride > 0 && stereoModel.stride > 0
  {
    [Scaler(Dna, scalerThreads),
     Basecaller(AdjustOverlap(overlap, model.stride), SimplexBatchTimeoutMs, model.name, "BasecallerNode", meanQScoreStartPos),
     // Simplex mode is left at the splitter settings' default, off.
     ReadSplit(DuplexSplitter(model.picoampereScaling, false), splitterThreads),
     Pairing(pairing, PairingThreads(pairing, hardwareThreads)),
     StereoDuplexEncoder(model.stride),
     Basecaller(AdjustOverlap(overlap, stereoModel.stride), StereoBatchTimeoutMs, DuplexReadGroup(model, stereoModel),
                "StereoBasecallerNode", meanQScoreStartPos)]
    + (if modbaseRunners > 0 then [ModBaseCaller(modbaseThreads, model.stride)] else [])
  }

  /** The handles of the stereo pipeline's nodes in data-flow order.  The
      builder adds them from the downstream end: the stereo basecaller
      first, then the modified-base caller if any, then the encoder,
      pairing node, splitter, basecaller and scaler. */
  function StereoFlow(base: nat, withModBase: bool): seq<int>
  {
    var m := if withModBase then 1 else 0;
    [base + 5 + m, base + 4 + m, base + 3 + m, base + 2 + m, base + 1 + m, base]
    + (if withModBase then [base + 1] else [])
  }

  /** The stereo nodes in the order the builder adds them. */
  function StereoAdditionOrder<T>(stages: seq<T>, withModBase: bool): seq<T>
    requires |stages| == if withModBase then 7 else 6
  {
    [stages[5]] + (if withModBase then [stages[6]] else [])
    + [stages[4], stages[3], stages[2], stages[1], stages[0]]
  }

  /** The stereo edges in the order the builder records them: the link to
      the modified-base caller, then each new node's link downstream. */
  function StereoEdgeOrder(base: nat, withModBase: bool): seq<Edge>
  {
    var m := if withModBase then 1 else 0;
    (if withModBase then [Edge(base, base + 1)] else [])
    + [Edge(base + 1 + m, base), Edge(base + 2 + m, base + 1 + m), Edge(base + 3 + m, base + 2 + m),
       Edge(base + 4 + m, base + 3 + m), Edge(base + 5 + m, base + 4 + m)]
  }

  /** Adding the stereo nodes from the downstream end, each linked to the
      one added before it, yields a chain in data-flow order once its ends
      are connected. */
  lemma StereoLayoutIsChain(d: Descriptor, r: Descriptor, stages: seq<Node>, withModBase: bool, source: int, sink: int)
    requires |stages| == if withModBase then 7 else 6
    requires r.nodes == d.nodes + StereoAdditionOrder(stages, withModBase)
    requires r.edges == d.edges + StereoEdgeOrder(|d.nodes|, withModBase)
    ensures var flow := StereoFlow(|d.nodes|, withModBase);
            IsChain(d, ConnectEnds(r, flow[0], flow[|flow| - 1], source, sink), flow, stages, source, sink)
  {
    var flow := StereoFlow(|d.nodes|, withModBase);
    var r' := ConnectEnds(r, flow[0], flow[|flow| - 1], source, sink);
    StereoNodesLaidOut(d, r', stages, withModBase);
    StereoEdgesLaidOut(d, r', withModBase, source, sink);
  }

  lemma StereoNodesLaidOut(d: Descriptor, r: Descriptor, stages: seq<Node>, withModBase: bool)
    requires |stages| == if withModBase then 7 else 6
    requires r.nodes == d.nodes + StereoAdditionOrder(stages, withModBase)
    ensures NodesLaidOut(d, r, StereoFlow(|d.nodes|, withModBase), stages)
  {
    var b := |d.nodes|;
    var flow := StereoFlow(b, withModBase);
    var offsets := StereoFlow(0, withModBase);
    AppendSplits(d.nodes, StereoAdditionOrder(stages, withModBase));
    StereoOrderFollowsFlow(stages, withModBase);
    StereoFlowShifts(b, withModBase);
    forall i | 0 <= i < |flow|
      ensures b <= flow[i] < |r.nodes| && r.nodes[flow[i]] == stages[i]
    {
      assert flow[i] == b + offsets[i];
    }
  }

  /** The stage at position `i` of data-flow order is the one the builder
      adds at offset `StereoFlow(0, _)[i]`. */
  lemma StereoOrderFollowsFlow<T>(stages: seq<T>, withModBase: bool)
    requires |stages| == if withModBase then 7 else 6
    ensures var order, offsets := StereoAdditionOrder(stages, withModBase), StereoFlow(0, withModBase);
            |offsets| == |stages| == |order|
            && forall i :: 0 <= i < |stages| ==> 0 <= offsets[i] < |order| && order[offsets[i]] == stages[i]
  {
  }

  /** The stereo handles are the offsets from the first new handle, and
      they are distinct. */
  lemma StereoFlowShifts(b: nat, withModBase: bool)
    ensures var flow, offsets := StereoFlow(b, withModBase), StereoFlow(0, withModBase);
            |flow| == |offsets|
            && (forall i :: 0 <= i < |flow| ==> flow[i] == b + offsets[i])
            && (forall i, j :: 0 <= i < j < |flow| ==> flow[i] != flow[j])
  {
  }

  lemma StereoEdgesLaidOut(d: Descriptor, r: Descriptor, withModBase: bool, source: int, sink: int)
    requires var flow := StereoFlow(|d.nodes|, withModBase);
             r.edges == d.edges + StereoEdgeOrder(|d.nodes|, withModBase) + Ends(flow[0], flow[|flow| - 1], source, sink)
    ensures EdgesLaidOut(d, r, StereoFlow(|d.nodes|, withModBase), source, sink)
  {
    var b := |d.nodes|;
    var flow := StereoFlow(b, withModBase);
    var ends := Ends(flow[0], flow[|flow| - 1], source, sink);
    assert r.edges[..|d.edges|] == d.edges;
    assert r.edges[|d.edges|..] == StereoEdgeOrder(b, withModBase) + ends;
    StereoEdgesPermuteChain(b, withModBase);
  }

  /** The builder records the stereo links in the reverse of data-flow
      order. */
  lemma StereoEdgesPermuteChain(b: nat, withModBase: bool)
    ensures multiset(StereoEdgeOrder(b, withModBase)) == multiset(ChainEdges(StereoFlow(b, withModBase)))
  {
    var chain := ChainEdges(StereoFlow(b, withModBase));
    StereoEdgesReverseChain(b, withModBase);
    ReversePermutes(chain);
  }

  lemma StereoEdgesReverseChain(b: nat, withModBase: bool)
    ensures StereoEdgeOrder(b, withModBase) == Reverse(ChainEdges(StereoFlow(b, withModBase)))
  {
    var order := StereoEdgeOrder(b, withModBase);
    var chain := ChainEdges(StereoFlow(b, withModBase));
    var reversed := Reverse(chain);
    assert |order| == |reversed|;
    forall i | 0 <= i < |order|
      ensures order[i] == reversed[i]
    {
    }
  }

  /** What the builder holds after adding the stereo basecaller and, when
      asked for, the modified-base caller linked from it. */
  predicate StereoMiddle(d: Descriptor, r: Descriptor, stereoNode: Node, modbaseNode: Node, withModBase: bool)
  {
    && r.nodes == d.nodes + [stereoNode] + (if withModBase then [modbaseNode] else [])
    && r.edges == d.edges + (if withModBase then [Edge(|d.nodes|, |d.nodes| + 1)] else [])
  }

  /** Once the encoder, pairing node, splitter, basecaller and scaler are
      appended after the middle, each linked to the node before it, the
      nodes and edges are those added in the builder's order. */
  lemma StereoAssembled(d: Descriptor, middle: Descriptor, r: Descriptor, stages: seq<Node>, withModBase: bool)
    requires |stages| == if withModBase then 7 else 6
    requires StereoMiddle(d, middle, stages[5], if withModBase then stages[6] else stages[5], withModBase)
    requires r.nodes == middle.nodes + [stages[4], stages[3], stages[2], stages[1], stages[0]]
    requires var b, m := |d.nodes|, if withModBase then 1 else 0;
             r.edges == middle.edges + [Edge(b + 1 + m, b), Edge(b + 2 + m, b + 1 + m), Edge(b + 3 + m, b + 2 + m),
                                        Edge(b + 4 + m, b + 3 + m), Edge(b + 5 + m, b + 4 + m)]
    ensures r.nodes == d.nodes + StereoAdditionOrder(stages, withModBase)
    ensures r.edges == d.edges + StereoEdgeOrder(|d.nodes|, withModBase)
  {
  }

  /** Appending five elements one at a time appends the five of them. */
  lemma AppendFive<T>(s: seq<T>, a: T, b: T, c: T, d: T, e: T)
    ensures s + [a] + [b] + [c] + [d] + [e] == s + [a, b, c, d, e]
  {
  }

  /** Builds the stereo-duplex pipeline onto `d`, from the downstream end
      towards the scaler. */
  method CreateStereoDuplex(d: Descriptor, model: ModelConfig, stereoModel: ModelConfig, modbaseRunners: nat,
                            overlap: nat, meanQScoreStartPos: nat, scalerThreads: int, splitterThreads: int,
                            modbaseThreads: int, pairing: PairingParameters, hardwareThreads: nat,
                            sink: int, source: int)
    returns (r: Descriptor)
    requires model.stride > 0 && stereoModel.stride > 0
    ensures IsChain(d, r, StereoFlow(|d.nodes|, modbaseRunners > 0),
                    StereoStages(model, stereoModel, modbaseRunners, overlap, meanQScoreStartPos,
                                 scalerThreads, splitterThreads, modbaseThreads, pairing, hardwareThreads),
                    source, sink)
  {
    var readGroup := DuplexReadGroup(model, stereoModel);
    var stereoOverlap := AdjustOverlap(overlap, stereoModel.stride);
    var stereoNode := Basecaller(stereoOverlap, StereoBatchTimeoutMs, readGroup, "StereoBasecallerNode", meanQScoreStartPos);
    var (r0, stereoBasecaller) := AddNode(d, stereoNode, []);
    r := r0;
    var last := stereoBasecaller;
    var modbaseNode := ModBaseCaller(modbaseThreads, model.stride);
    if modbaseRunners > 0 {
      var (r1, modbase) := AddNode(r, modbaseNode, []);
      r := AddSink(r1, stereoBasecaller, modbase);
      last := modbase;
    }
    ghost var withModBase := modbaseRunners > 0;
    ghost var middle := r;
    assert StereoMiddle(d, middle, stereoNode, modbaseNode, withModBase);
    ghost var b := |d.nodes|;
    ghost var m := if withModBase then 1 else 0;
    var encoderNode := StereoDuplexEncoder(model.stride);
    var (r2, encoder) := AddNode(r, encoderNode, [stereoBasecaller]);
    var pairingNode := Pairing(pairing, PairingThreads(pairing, hardwareThreads));
    var (r3, pairer) := AddNode(r2, pairingNode, [encoder]);
    // Simplex mode is left at the splitter settings' default, off.
    var splitNode := ReadSplit(DuplexSplitter(model.picoampereScaling, false), splitterThreads);
    var (r4, splitter) := AddNode(r3, splitNode, [pairer]);
    var simplexOverlap := AdjustOverlap(overlap, model.stride);
    var basecallerNode := Basecaller(simplexOverlap, SimplexBatchTimeoutMs, model.name, "BasecallerNode", meanQScoreStartPos);
    var (r5, basecaller) := AddNode(r4, basecallerNode, [splitter]);
    var scalerNode := Scaler(Dna, scalerThreads);
    var (r6, scaler) := AddNode(r5, scalerNode, [basecaller]);
    r := r6;
    AppendFive(middle.nodes, encoderNode, pairingNode, splitNode, basecallerNode, scalerNode);
    assert r.edges == middle.edges + [Edge(b + 1 + m, b), Edge(b + 2 + m, b + 1 + m), Edge(b + 3 + m, b + 2 + m),
                                      Edge(b + 4 + m, b + 3 + m), Edge(b + 5 + m, b + 4 + m)];

    ghost var stages := [scalerNode, basecallerNode, splitNode, pairingNode, encoderNode, stereoNode]
                        + (if withModBase then [modbaseNode] else []);
    assert stages == StereoStages(model, stereoModel, modbaseRunners, overlap, meanQScoreStartPos,
                                  scalerThreads, splitterThreads, modbaseThreads, pairing, hardwareThreads);
    StereoAssembled(d, middle, r, stages, withModBase);
    ghost var flow := StereoFlow(|d.nodes|, withModBase);
    assert scaler == flow[0] && last == flow[|flow| - 1];
    StereoLayoutIsChain(d, r, stages, modbaseRunners > 0, source, sink);
    r := ConnectEnds(r, scaler, last, source, sink);
  }
}
