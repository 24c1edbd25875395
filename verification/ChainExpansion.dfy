/**
 * Expanding a workflow chain into a parent workflow
 * (examples/hosts/in-memory/src/workflow-chain-expansion.ts): a renaming of its graph, with
 * each node's compensation carried along. The two regex rewrites are parameters.
 */
module ChainExpansion {
  import opened Wrappers
  import opened Ordering
  import opened Json
  import opened JsonRoundTrip

  const DOT: Unit := 0x2E
  const UNDERSCORE: Unit := 0x5F

  datatype Compensation = Compensation(
    nodeTypeId: Text,
    inputMapping: Option<Json>,
    retry: Option<Json>,
    requiresApproval: Option<bool>)

  /** Of a node: what expansion reads, and as `caption` what it copies. */
  datatype Node = Node(
    id: Text,
    typeId: Text,
    caption: Option<Json>,
    config: Option<Json>,
    inputs: Option<Json>,
    compensation: Option<Compensation>,
    irreversible: bool)

  datatype Edge = Edge(from: Text, to: Text, condition: Option<Text>, triggerRule: Option<Text>)

  datatype Chain = Chain(chainId: Text, nodes: seq<Node>, edges: seq<Edge>, capabilities: seq<Text>, policy: Option<Json>)

  /** The caller's ids, its resolver, and the two rewrites done with regular expressions. */
  datatype Context = Context(
    expansionId: Text,
    resolvable: Text -> bool,
    substitute: Json -> Json,
    rewriteMapping: (Json, set<Text>, Text) -> Json)

  datatype ExpandedNode = ExpandedNode(
    id: Text,
    typeId: Text,
    caption: Option<Json>,
    config: Option<Json>,
    inputs: Option<Json>,
    capabilities: seq<Text>,
    compensation: Option<Compensation>,
    irreversible: bool)

  datatype Fragment = Fragment(nodes: seq<ExpandedNode>, edges: seq<Edge>, idMap: map<Text, Text>)

  datatype Error = UnresolvableTypeId(typeId: Text) | IrreversibleWithCompensation(nodeId: Text) | PolicyConflict

  datatype Result<+R> = Ok(value: R) | Err(error: Error)

  // ------------------------------------------------------------------- the parts

  /** Up to the first dot. */
  function Owner(ref: Text): Text {
    if ref == [] || ref[0] == DOT then [] else [ref[0]] + Owner(ref[1..])
  }

  /** From the first dot on. */
  function Port(ref: Text): Text {
    if ref == [] || ref[0] == DOT then ref else Port(ref[1..])
  }

  function RewriteEdgeRef(ref: Text, ids: set<Text>, prefix: Text): Text {
    if Owner(ref) in ids then prefix + Owner(ref) + Port(ref) else ref
  }

  function DotsReplaced(t: Text): (r: Text)
    ensures |r| == |t|
  {
    if t == [] then [] else [if t[0] == DOT then UNDERSCORE else t[0]] + DotsReplaced(t[1..])
  }

  function ComputePrefix(chainId: Text, expansionId: Text): Text {
    DotsReplaced(chainId) + [UNDERSCORE] + expansionId + [UNDERSCORE]
  }

  function Ids(nodes: seq<Node>): set<Text> {
    set n | n in nodes :: n.id
  }

  function Substituted(v: Option<Json>, ctx: Context): Option<Json> {
    if v.None? then None else Some(ctx.substitute(v.value))
  }

  function ExpandNode(n: Node, prefix: Text, ctx: Context, capabilities: seq<Text>): ExpandedNode {
    ExpandedNode(prefix + n.id, n.typeId, n.caption, Substituted(n.config, ctx), Substituted(n.inputs, ctx), capabilities,
                 None, false)
  }

  function ExpandNodes(nodes: seq<Node>, prefix: Text, ctx: Context, capabilities: seq<Text>): (r: seq<ExpandedNode>)
    ensures |r| == |nodes|
    ensures forall i {:trigger r[i]} | 0 <= i < |nodes| :: r[i] == ExpandNode(nodes[i], prefix, ctx, capabilities)
  {
    if nodes == [] then []
    else
      var n := |nodes| - 1;
      ExpandNodes(nodes[..n], prefix, ctx, capabilities) + [ExpandNode(nodes[n], prefix, ctx, capabilities)]
  }

  function ExpandEdge(e: Edge, ids: set<Text>, prefix: Text): Edge {
    e.(from := RewriteEdgeRef(e.from, ids, prefix), to := RewriteEdgeRef(e.to, ids, prefix))
  }

  function ExpandEdges(edges: seq<Edge>, ids: set<Text>, prefix: Text): (r: seq<Edge>)
    ensures |r| == |edges|
    ensures forall i {:trigger r[i]} | 0 <= i < |edges| :: r[i] == ExpandEdge(edges[i], ids, prefix)
  {
    if edges == [] then []
    else
      var n := |edges| - 1;
      ExpandEdges(edges[..n], ids, prefix) + [ExpandEdge(edges[n], ids, prefix)]
  }

  /** The first type id that does not resolve. */
  function FirstUnresolved(nodes: seq<Node>, resolvable: Text -> bool): Option<Text> {
    if nodes == [] then None
    else if !resolvable(nodes[0].typeId) then Some(nodes[0].typeId)
    else FirstUnresolved(nodes[1..], resolvable)
  }

  function Expanded(chain: Chain, ctx: Context): Result<Fragment> {
    var unresolved := FirstUnresolved(chain.nodes, ctx.resolvable);
    if unresolved.Some? then Err(UnresolvableTypeId(unresolved.value))
    else
      var prefix, ids := ComputePrefix(chain.chainId, ctx.expansionId), Ids(chain.nodes);
      Ok(Fragment(ExpandNodes(chain.nodes, prefix, ctx, chain.capabilities), ExpandEdges(chain.edges, ids, prefix),
                  map id | id in ids :: prefix + id))
  }

  /** The first node whose compensation cannot be carried. */
  function FirstRefused(nodes: seq<Node>, resolvable: Text -> bool): Option<Error> {
    if nodes == [] then None
    else if nodes[0].irreversible && nodes[0].compensation.Some? then Some(IrreversibleWithCompensation(nodes[0].id))
    else if nodes[0].compensation.Some? && !resolvable(nodes[0].compensation.value.nodeTypeId) then
      Some(UnresolvableTypeId(nodes[0].compensation.value.nodeTypeId))
    else FirstRefused(nodes[1..], resolvable)
  }

  /** new Map(entries).get(id): of entries with one key the last. */
  function ByOriginalId(nodes: seq<Node>, id: Text): Option<Node> {
    if nodes == [] then None
    else if nodes[|nodes| - 1].id == id then Some(nodes[|nodes| - 1])
    else ByOriginalId(nodes[..|nodes| - 1], id)
  }

  function Stripped(id: Text, prefix: Text): Text {
    if prefix <= id then id[|prefix|..] else id
  }

  function CarriedCompensation(c: Compensation, ids: set<Text>, prefix: Text, ctx: Context): Compensation {
    c.(inputMapping := if c.inputMapping.None? then None
                       else Some(ctx.rewriteMapping(ctx.substitute(c.inputMapping.value), ids, prefix)))
  }

  function CarryOnto(en: ExpandedNode, chain: Chain, prefix: Text, ctx: Context): ExpandedNode {
    var src := ByOriginalId(chain.nodes, Stripped(en.id, prefix));
    if src.Some? && src.value.irreversible then en.(irreversible := true)
    else if src.None? || src.value.compensation.None? then en
    else en.(compensation := Some(CarriedCompensation(src.value.compensation.value, Ids(chain.nodes), prefix, ctx)))
  }

  function CarryOntoAll(ens: seq<ExpandedNode>, chain: Chain, prefix: Text, ctx: Context): (r: seq<ExpandedNode>)
    ensures |r| == |ens|
    ensures forall i {:trigger r[i]} | 0 <= i < |ens| :: r[i] == CarryOnto(ens[i], chain, prefix, ctx)
  {
    seq(|ens|, i requires 0 <= i < |ens| => CarryOnto(ens[i], chain, prefix, ctx))
  }

  /** settings.compensation after the expansion. */
  function Policy(chain: Option<Json>, parent: Option<Json>): Result<Option<Json>> {
    if chain.None? then Ok(parent)
    else if parent.None? then Ok(chain)
    else if Canonicalize(parent.value) != Canonicalize(chain.value) then Err(PolicyConflict)
    else Ok(parent)
  }

  function Carried(chain: Chain, fragment: Fragment, ctx: Context, parent: Option<Json>): Result<(seq<ExpandedNode>, Option<Json>)> {
    var refused := FirstRefused(chain.nodes, ctx.resolvable);
    var policy := Policy(chain.policy, parent);
    if refused.Some? then Err(refused.value)
    else if policy.Err? then Err(PolicyConflict)
    else Ok((CarryOntoAll(fragment.nodes, chain, ComputePrefix(chain.chainId, ctx.expansionId), ctx), policy.value))
  }

  // -------------------------------------------------------- with the source's loops

  method ExpandChain(chain: Chain, ctx: Context) returns (r: Result<Fragment>)
    ensures r == Expanded(chain, ctx)
  {
    for i := 0 to |chain.nodes|
      invariant FirstUnresolved(chain.nodes, ctx.resolvable) == FirstUnresolved(chain.nodes[i..], ctx.resolvable)
    {
      assert chain.nodes[i..][1..] == chain.nodes[i + 1..];
      if !ctx.resolvable(chain.nodes[i].typeId) {
        return Err(UnresolvableTypeId(chain.nodes[i].typeId));
      }
    }
    var prefix := ComputePrefix(chain.chainId, ctx.expansionId);
    var fragmentNodeIds := Ids(chain.nodes);
    var idMap := map[];
    var nodes := [];
    for i := 0 to |chain.nodes|
      invariant nodes == ExpandNodes(chain.nodes[..i], prefix, ctx, chain.capabilities)
      invariant idMap == map id | id in Ids(chain.nodes[..i]) :: prefix + id
    {
      assert chain.nodes[..i + 1] == chain.nodes[..i] + [chain.nodes[i]];
      assert chain.nodes[..i + 1][..i] == chain.nodes[..i];
      nodes := nodes + [ExpandNode(chain.nodes[i], prefix, ctx, chain.capabilities)];
      idMap := idMap[chain.nodes[i].id := prefix + chain.nodes[i].id];
    }
    assert chain.nodes[..|chain.nodes|] == chain.nodes;
    r := Ok(Fragment(nodes, ExpandEdges(chain.edges, fragmentNodeIds, prefix), idMap));
  }

  method CarryCompensation(chain: Chain, fragment: Fragment, ctx: Context, parent: Option<Json>)
    returns (r: Result<(seq<ExpandedNode>, Option<Json>)>)
    ensures r == Carried(chain, fragment, ctx, parent)
  {
    var prefix := ComputePrefix(chain.chainId, ctx.expansionId);
    for i := 0 to |chain.nodes|
      invariant FirstRefused(chain.nodes, ctx.resolvable) == FirstRefused(chain.nodes[i..], ctx.resolvable)
    {
      assert chain.nodes[i..][1..] == chain.nodes[i + 1..];
      var n := chain.nodes[i];
      if n.irreversible && n.compensation.Some? { return Err(IrreversibleWithCompensation(n.id)); }
      if n.compensation.Some? && !ctx.resolvable(n.compensation.value.nodeTypeId) {
        return Err(UnresolvableTypeId(n.compensation.value.nodeTypeId));
      }
    }
    var nodes := [];
    for i := 0 to |fragment.nodes|
      invariant nodes == CarryOntoAll(fragment.nodes[..i], chain, prefix, ctx)
    {
      assert fragment.nodes[..i + 1][..i] == fragment.nodes[..i];
      nodes := nodes + [CarryOnto(fragment.nodes[i], chain, prefix, ctx)];
    }
    assert fragment.nodes[..|fragment.nodes|] == fragment.nodes;
    var settings := parent;
    if chain.policy.Some? {
      if parent.None? {
        settings := chain.policy;
      } else if Canonicalize(parent.value) != Canonicalize(chain.policy.value) {
        return Err(PolicyConflict);
      }
    }
    r := Ok((nodes, settings));
  }

  // ------------------------------------------------------------------- references

  predicate DotFree(t: Text) { DOT !in t }

  lemma {:induction false} RefSplits(ref: Text)
    ensures Owner(ref) + Port(ref) == ref && DotFree(Owner(ref))
  {
    if ref != [] && ref[0] != DOT {
      RefSplits(ref[1..]);
      assert [ref[0]] + Owner(ref[1..]) + Port(ref[1..]) == [ref[0]] + (Owner(ref[1..]) + Port(ref[1..]));
    }
  }

  /** A dot-free name followed by a port is read back as that name and that port. */
  lemma {:induction false} RefJoins(name: Text, port: Text)
    requires DotFree(name) && (port == [] || port[0] == DOT)
    ensures Owner(name + port) == name && Port(name + port) == port
  {
    if name == [] {
      assert name + port == port;
    } else {
      assert name[0] in name;
      assert (name + port)[1..] == name[1..] + port;
      RefJoins(name[1..], port);
    }
  }

  lemma {:induction false} PortStartsWithDot(ref: Text)
    ensures Port(ref) == [] || Port(ref)[0] == DOT
  {
    if ref != [] && ref[0] != DOT { PortStartsWithDot(ref[1..]); }
  }

  lemma {:induction false} DotsReplacedDotFree(t: Text)
    ensures DotFree(DotsReplaced(t))
  {
    if t != [] { DotsReplacedDotFree(t[1..]); }
  }

  lemma {:induction false} PrefixDotFree(chainId: Text, expansionId: Text)
    ensures DotFree(ComputePrefix(chainId, expansionId)) <==> DotFree(expansionId)
  {
    DotsReplacedDotFree(chainId);
  }

  function Image(name: Text, ids: set<Text>, prefix: Text): Text {
    if name in ids then prefix + name else name
  }

  /** A rewritten reference names the image of its node, with its port; an outside one is unchanged. */
  lemma {:induction false} RefResolvesToImage(ref: Text, ids: set<Text>, prefix: Text)
    requires DotFree(prefix)
    ensures var r := RewriteEdgeRef(ref, ids, prefix);
            && Owner(r) == Image(Owner(ref), ids, prefix) && Port(r) == Port(ref)
            && (Owner(ref) !in ids ==> r == ref)
  {
    RefSplits(ref);
    if Owner(ref) in ids {
      PortStartsWithDot(ref);
      RefJoins(prefix + Owner(ref), Port(ref));
    }
  }

  /** Without a dot-free prefix it fails: the part after the dot is read as a port. */
  lemma {:induction false} DottedExpansionBreaksRefs(chainId: Text, expansionId: Text, id: Text)
    requires !DotFree(expansionId) && DotFree(id)
    ensures Owner(RewriteEdgeRef(id, {id}, ComputePrefix(chainId, expansionId))) != ComputePrefix(chainId, expansionId) + id
  {
    var prefix := ComputePrefix(chainId, expansionId);
    RefJoins(id, []);
    assert id + [] == id;
    PrefixDotFree(chainId, expansionId);
    RefSplits(prefix + id);
    var r := RewriteEdgeRef(id, {id}, prefix);
    assert r == prefix + id + [] == prefix + id;
    var k :| 0 <= k < |prefix| && prefix[k] == DOT;
    assert (prefix + id)[k] == DOT;
  }

  /** An outside name that is the image of a fragment id. */
  predicate Clash(a: Text, b: Text, ids: set<Text>, prefix: Text) {
    (a in ids && b !in ids && b == prefix + a) || (b in ids && a !in ids && a == prefix + b)
  }

  lemma {:induction false} PrefixCancels(prefix: Text, a: Text, b: Text)
    requires prefix + a == prefix + b
    ensures a == b
  {
    assert a == (prefix + a)[|prefix|..] && b == (prefix + b)[|prefix|..];
  }

  /** Renaming joins two names exactly if they were one, or an outside name is the other's image. */
  lemma {:induction false} ImagesMeet(a: Text, b: Text, ids: set<Text>, prefix: Text)
    ensures Image(a, ids, prefix) == Image(b, ids, prefix) <==> a == b || Clash(a, b, ids, prefix)
  {
    if a in ids && b in ids && prefix + a == prefix + b { PrefixCancels(prefix, a, b); }
  }

  // ------------------------------------------------------------------------ paths

  /** Edges, by index, each starting at the node the one before ends at. */
  predicate IsPath(edges: seq<Edge>, path: seq<nat>) {
    && (forall k | 0 <= k < |path| :: path[k] < |edges|)
    && (forall k | 0 <= k < |path| - 1 :: Joins(edges, path, k))
  }

  predicate Joins(edges: seq<Edge>, path: seq<nat>, k: nat)
    requires k + 1 < |path| && forall k | 0 <= k < |path| :: path[k] < |edges|
  {
    Owner(edges[path[k]].to) == Owner(edges[path[k + 1]].from)
  }

  /** No edge refers from outside to what will be the id of an expanded node. */
  ghost predicate NoClash(edges: seq<Edge>, ids: set<Text>, prefix: Text) {
    forall e, f | e in edges && f in edges :: !Clash(Owner(e.to), Owner(f.from), ids, prefix)
  }

  lemma {:induction false} JoinsCorrespond(edges: seq<Edge>, ids: set<Text>, prefix: Text, e: Edge, f: Edge)
    requires DotFree(prefix)
    ensures Owner(ExpandEdge(e, ids, prefix).to) == Owner(ExpandEdge(f, ids, prefix).from)
       <==> Owner(e.to) == Owner(f.from) || Clash(Owner(e.to), Owner(f.from), ids, prefix)
  {
    RefResolvesToImage(e.to, ids, prefix);
    RefResolvesToImage(f.from, ids, prefix);
    ImagesMeet(Owner(e.to), Owner(f.from), ids, prefix);
  }

  /** The paths of the expanded edges are those of the chain, index for index. */
  lemma {:induction false} PathsCorrespond(edges: seq<Edge>, ids: set<Text>, prefix: Text, path: seq<nat>)
    requires DotFree(prefix) && NoClash(edges, ids, prefix)
    ensures IsPath(ExpandEdges(edges, ids, prefix), path) <==> IsPath(edges, path)
  {
    if forall k | 0 <= k < |path| :: path[k] < |edges| {
      forall k | 0 <= k < |path| - 1
        ensures Joins(ExpandEdges(edges, ids, prefix), path, k) <==> Joins(edges, path, k)
      {
        JoinsCorrespond(edges, ids, prefix, edges[path[k]], edges[path[k + 1]]);
        assert edges[path[k]] in edges && edges[path[k + 1]] in edges;
      }
    }
  }

  /** The condition is exact: where it fails, two edges that did not meet now do. */
  lemma {:induction false} ClashAddsPath(edges: seq<Edge>, ids: set<Text>, prefix: Text, i: nat, j: nat)
    requires DotFree(prefix) && i < |edges| && j < |edges|
    requires Clash(Owner(edges[i].to), Owner(edges[j].from), ids, prefix)
    ensures IsPath(ExpandEdges(edges, ids, prefix), [i, j]) && !IsPath(edges, [i, j])
  {
    JoinsCorrespond(edges, ids, prefix, edges[i], edges[j]);
    assert Joins(ExpandEdges(edges, ids, prefix), [i, j], 0);
    assert IsPath(edges, [i, j]) ==> Joins(edges, [i, j], 0);
  }

  // -------------------------------------------------------------- nodes and their own

  ghost predicate DistinctIds(nodes: seq<Node>) {
    forall i, j | 0 <= i < j < |nodes| :: nodes[i].id != nodes[j].id
  }

  /** Node j is the last to have the id of node i. */
  ghost predicate LastWithId(nodes: seq<Node>, i: nat, j: nat)
    requires i < |nodes|
  {
    i <= j < |nodes| && nodes[j].id == nodes[i].id && forall k | j < k < |nodes| :: nodes[k].id != nodes[i].id
  }

  lemma {:induction false} FindsLast(nodes: seq<Node>, i: nat, j: nat)
    requires i < |nodes| && LastWithId(nodes, i, j)
    ensures ByOriginalId(nodes, nodes[i].id) == Some(nodes[j])
  {
    if j < |nodes| - 1 { FindsLast(nodes[..|nodes| - 1], i, j); }
  }

  /** Expanded ids are distinct, dot-free where the chain's are, and listed by idMap. */
  lemma {:induction false} ExpandedIds(chain: Chain, ctx: Context, i: nat, j: nat)
    requires Expanded(chain, ctx).Ok? && DistinctIds(chain.nodes)
    requires i < |chain.nodes| && j < |chain.nodes|
    ensures var f := Expanded(chain, ctx).value;
            && |f.nodes| == |chain.nodes|
            && (f.nodes[i].id == f.nodes[j].id <==> i == j)
            && chain.nodes[i].id in f.idMap && f.idMap[chain.nodes[i].id] == f.nodes[i].id
            && (DotFree(f.nodes[i].id) <==> DotFree(ctx.expansionId) && DotFree(chain.nodes[i].id))
  {
    var prefix := ComputePrefix(chain.chainId, ctx.expansionId);
    PrefixDotFree(chain.chainId, ctx.expansionId);
    if prefix + chain.nodes[i].id == prefix + chain.nodes[j].id { PrefixCancels(prefix, chain.nodes[i].id, chain.nodes[j].id); }
    assert chain.nodes[i] in chain.nodes;
  }

  /** Every endpoint of an expanded edge is an expanded node or stays outside, and which it is does not change. */
  lemma {:induction false} EndpointsResolve(chain: Chain, ctx: Context, k: nat)
    requires Expanded(chain, ctx).Ok? && DotFree(ctx.expansionId) && k < |chain.edges|
    ensures var f := Expanded(chain, ctx).value;
            var e, x := chain.edges[k], f.edges[k];
            && |f.edges| == |chain.edges|
            && Owner(x.from) == (if Owner(e.from) in f.idMap then f.idMap[Owner(e.from)] else Owner(e.from))
            && Owner(x.to) == (if Owner(e.to) in f.idMap then f.idMap[Owner(e.to)] else Owner(e.to))
            && Port(x.from) == Port(e.from) && Port(x.to) == Port(e.to)
            && x.condition == e.condition && x.triggerRule == e.triggerRule
  {
    var prefix := ComputePrefix(chain.chainId, ctx.expansionId);
    PrefixDotFree(chain.chainId, ctx.expansionId);
    RefResolvesToImage(chain.edges[k].from, Ids(chain.nodes), prefix);
    RefResolvesToImage(chain.edges[k].to, Ids(chain.nodes), prefix);
  }

  lemma {:induction false} RefusedIsFirst(nodes: seq<Node>, resolvable: Text -> bool, i: nat)
    requires FirstRefused(nodes, resolvable).None? && i < |nodes|
    ensures !(nodes[i].irreversible && nodes[i].compensation.Some?)
    ensures nodes[i].compensation.Some? ==> resolvable(nodes[i].compensation.value.nodeTypeId)
  {
    if i > 0 { RefusedIsFirst(nodes[1..], resolvable, i - 1); }
  }

  /** Expanded node i carries what chain node `n` declares. */
  ghost predicate Carries(chain: Chain, ctx: Context, parent: Option<Json>, i: nat, n: Node)
    requires Expanded(chain, ctx).Ok? && Carried(chain, Expanded(chain, ctx).value, ctx, parent).Ok?
  {
    var nodes := Carried(chain, Expanded(chain, ctx).value, ctx, parent).value.0;
    && i < |nodes| == |chain.nodes| == |Expanded(chain, ctx).value.nodes| && nodes[i].id == Expanded(chain, ctx).value.nodes[i].id
    && nodes[i].irreversible == n.irreversible
    && (nodes[i].compensation.None? <==> n.compensation.None?)
    && (n.compensation.Some? ==>
          && ctx.resolvable(n.compensation.value.nodeTypeId)
          && nodes[i].compensation == Some(CarriedCompensation(n.compensation.value, Ids(chain.nodes),
                                           ComputePrefix(chain.chainId, ctx.expansionId), ctx)))
  }

  /** In any chain a node carries what the last chain node with its id declares. */
  lemma {:induction false} RepeatedIdTakesLast(chain: Chain, ctx: Context, parent: Option<Json>, i: nat, j: nat)
    requires i < |chain.nodes| && LastWithId(chain.nodes, i, j)
    requires Expanded(chain, ctx).Ok? && Carried(chain, Expanded(chain, ctx).value, ctx, parent).Ok?
    ensures Carries(chain, ctx, parent, i, chain.nodes[j])
  {
    var prefix := ComputePrefix(chain.chainId, ctx.expansionId);
    var en := Expanded(chain, ctx).value.nodes[i];
    assert en.id == prefix + chain.nodes[i].id;
    assert prefix <= en.id && en.id[|prefix|..] == chain.nodes[i].id;
    FindsLast(chain.nodes, i, j);
    RefusedIsFirst(chain.nodes, ctx.resolvable, j);
  }

  /** With distinct ids that is its own: exactly the compensation and the irreversibility it declares. */
  lemma {:induction false} EachNodeItsOwn(chain: Chain, ctx: Context, parent: Option<Json>, i: nat)
    requires DistinctIds(chain.nodes) && i < |chain.nodes|
    requires Expanded(chain, ctx).Ok? && Carried(chain, Expanded(chain, ctx).value, ctx, parent).Ok?
    ensures Carries(chain, ctx, parent, i, chain.nodes[i])
  {
    RepeatedIdTakesLast(chain, ctx, parent, i, i);
  }

  /** A policy conflict is raised exactly when both sides have a policy and they differ as JSON values. */
  lemma {:induction false} ConflictIffDifferent(chain: Option<Json>, parent: Option<Json>)
    requires (chain.Some? ==> IsJson(chain.value)) && (parent.Some? ==> IsJson(parent.value))
    ensures Policy(chain, parent).Err? <==> chain.Some? && parent.Some? && !DeepEqual(parent.value, chain.value)
    ensures Policy(chain, parent).Ok? ==>
      Policy(chain, parent).value == if parent.Some? then parent else chain
  {
    if chain.Some? && parent.Some? { SameTextIffDeepEqual(parent.value, chain.value); }
  }

  // ------------------------------------------------- the fragment, field by field

  /** The prefix: the chain id with its dots as underscores, an underscore, the expansion id, an underscore. */
  lemma {:induction false} PrefixSpelled(chainId: Text, expansionId: Text)
    ensures var p, n := ComputePrefix(chainId, expansionId), |chainId|;
            && |p| == n + |expansionId| + 2
            && (forall i | 0 <= i < n :: p[i] == if chainId[i] == 0x2E then 0x5F else chainId[i])
            && p[n] == 0x5F && p[n + 1..|p| - 1] == expansionId && p[|p| - 1] == 0x5F
  {
    DotsReplacedAt(chainId);
  }

  lemma {:induction false} DotsReplacedAt(t: Text)
    ensures forall i | 0 <= i < |t| :: DotsReplaced(t)[i] == if t[i] == 0x2E then 0x5F else t[i]
  {
    if t != [] { DotsReplacedAt(t[1..]); }
  }

  predicate UnresolvedFirst(nodes: seq<Node>, resolvable: Text -> bool, i: nat) {
    i < |nodes| && !resolvable(nodes[i].typeId) && forall j | 0 <= j < i :: resolvable(nodes[j].typeId)
  }

  lemma {:induction false} FirstUnresolvedIs(nodes: seq<Node>, resolvable: Text -> bool)
    ensures match FirstUnresolved(nodes, resolvable)
            case None => forall j | 0 <= j < |nodes| :: resolvable(nodes[j].typeId)
            case Some(t) => exists i: nat :: UnresolvedFirst(nodes, resolvable, i) && nodes[i].typeId == t
  {
    if nodes != [] {
      if !resolvable(nodes[0].typeId) {
        assert UnresolvedFirst(nodes, resolvable, 0);
      } else {
        FirstUnresolvedIs(nodes[1..], resolvable);
        if FirstUnresolved(nodes, resolvable).Some? {
          var i: nat :| UnresolvedFirst(nodes[1..], resolvable, i) && nodes[1..][i].typeId == FirstUnresolved(nodes, resolvable).value;
          forall j | 0 <= j < i + 1 ensures resolvable(nodes[j].typeId) {
            if j > 0 { assert nodes[1..][j - 1] == nodes[j]; }
          }
          assert UnresolvedFirst(nodes, resolvable, i + 1);
        }
      }
    }
  }

  /**
   * A chain is refused exactly if the type of a node does not resolve, with the first such type.
   * Otherwise each node keeps its type and caption, has its config and inputs substituted, takes the
   * chain's capabilities and carries no compensation yet.
   */
  lemma {:induction false} ExpandedByFields(chain: Chain, ctx: Context)
    ensures match Expanded(chain, ctx)
            case Err(UnresolvableTypeId(t)) => exists i: nat :: UnresolvedFirst(chain.nodes, ctx.resolvable, i) && chain.nodes[i].typeId == t
            case Err(_) => false
            case Ok(fragment) =>
              && (forall j | 0 <= j < |chain.nodes| :: ctx.resolvable(chain.nodes[j].typeId))
              && |fragment.nodes| == |chain.nodes| && |fragment.edges| == |chain.edges|
              && forall j | 0 <= j < |chain.nodes| ::
                   var n, en := chain.nodes[j], fragment.nodes[j];
                   && en.id == ComputePrefix(chain.chainId, ctx.expansionId) + n.id
                   && en.typeId == n.typeId && en.caption == n.caption && en.capabilities == chain.capabilities
                   && en.config == (if n.config.None? then None else Some(ctx.substitute(n.config.value)))
                   && en.inputs == (if n.inputs.None? then None else Some(ctx.substitute(n.inputs.value)))
                   && en.compensation.None? && !en.irreversible
  {
    FirstUnresolvedIs(chain.nodes, ctx.resolvable);
  }

  /** A node that asks for a compensation it may not have, or one whose type does not resolve. */
  predicate RefusedAt(n: Node, resolvable: Text -> bool, e: Error) {
    n.compensation.Some? &&
      if n.irreversible then e == IrreversibleWithCompensation(n.id)
      else !resolvable(n.compensation.value.nodeTypeId) && e == UnresolvableTypeId(n.compensation.value.nodeTypeId)
  }

  predicate CarriesCompensation(n: Node, resolvable: Text -> bool) {
    n.compensation.Some? ==> !n.irreversible && resolvable(n.compensation.value.nodeTypeId)
  }

  predicate RefusedFirst(nodes: seq<Node>, resolvable: Text -> bool, i: nat, e: Error) {
    i < |nodes| && RefusedAt(nodes[i], resolvable, e) && forall j | 0 <= j < i :: CarriesCompensation(nodes[j], resolvable)
  }

  lemma {:induction false} FirstRefusedIs(nodes: seq<Node>, resolvable: Text -> bool) returns (i: nat)
    ensures var found := FirstRefused(nodes, resolvable);
            if found.None? then forall j | 0 <= j < |nodes| :: CarriesCompensation(nodes[j], resolvable)
            else RefusedFirst(nodes, resolvable, i, found.value)
  {
    i := 0;
    if nodes != [] && CarriesCompensation(nodes[0], resolvable) {
      i := FirstRefusedIs(nodes[1..], resolvable);
      var n := if FirstRefused(nodes, resolvable).None? then |nodes| else i + 1;
      forall j | 0 <= j < n ensures CarriesCompensation(nodes[j], resolvable) {
        if j > 0 { assert CarriesCompensation(nodes[1..][j - 1], resolvable); }
      }
      i := i + 1;
    }
  }

  /**
   * Carrying is refused for the first node that may not have its compensation, then for policies that
   * differ. Otherwise the policy is the parent's if it has one, and else the chain's.
   */
  lemma {:induction false} CarriedByFields(chain: Chain, fragment: Fragment, ctx: Context, parent: Option<Json>)
    ensures match Carried(chain, fragment, ctx, parent)
            case Ok(carried) =>
              && (forall j | 0 <= j < |chain.nodes| :: CarriesCompensation(chain.nodes[j], ctx.resolvable))
              && |carried.0| == |fragment.nodes|
              && carried.1 == (if parent.Some? then parent else chain.policy)
              && (parent.Some? && chain.policy.Some? ==> Canonicalize(parent.value) == Canonicalize(chain.policy.value))
            case Err(PolicyConflict) =>
              && (forall j | 0 <= j < |chain.nodes| :: CarriesCompensation(chain.nodes[j], ctx.resolvable))
              && parent.Some? && chain.policy.Some? && Canonicalize(parent.value) != Canonicalize(chain.policy.value)
            case Err(e) => exists i: nat :: RefusedFirst(chain.nodes, ctx.resolvable, i, e)
  {
    var i := FirstRefusedIs(chain.nodes, ctx.resolvable);
  }
}
