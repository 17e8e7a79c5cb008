/**
 The budgeted, paged tree browse of the OPC-UA plugin (crates/plugin-opcua/src/main.rs).

 A server answers a browse with a list of pages. `Unfold` is the tree to a given depth with every
 page drained and no budget; `Truncate` keeps the first nodes of a forest in preorder. The method
 that runs with a shared budget and stops paging early computes exactly their composition.
 */
module Browse {
  import opened Common

  type NodeId = string

  datatype Reference = Reference(target: NodeId, name: string, variable: bool)

  datatype Node = Leaf(id: NodeId, name: string) | Branch(id: NodeId, name: string, children: seq<Node>)

  /** One answer of the server: a page of references, an empty result list, or an error. */
  datatype Answer = Page(refs: seq<Reference>) | NoResult | Failed

  /** The answers to `browse` and then `browse_next`; a continuation point says that another follows. */
  type Graph = map<NodeId, seq<Answer>>

  const MAX_PAGES := 65

  function Answers(g: Graph, node: NodeId): seq<Answer> { if node in g then g[node] else [] }

  // ------------------------------------------------------------- specification

  /** The references of every page before the first answer that is not a page. */
  function Drain(answers: seq<Answer>): seq<Reference> {
    if answers == [] || !answers[0].Page? then [] else answers[0].refs + Drain(answers[1..])
  }

  /** The answers that are ever asked for: the first page and at most 64 more. */
  function Capped(answers: seq<Answer>): seq<Answer> { answers[..Min(MAX_PAGES, |answers|)] }

  function Cap(g: Graph): Graph { map n | n in g :: Capped(g[n]) }

  /** The children of `node` to `depth` levels, with every page drained and no budget. */
  function Unfold(g: Graph, node: NodeId, depth: nat): seq<Node>
    decreases depth, 1, 0
  {
    if depth == 0 then [] else Grow(g, Drain(Answers(g, node)), depth)
  }

  function Grow(g: Graph, refs: seq<Reference>, depth: nat): (f: seq<Node>)
    requires depth > 0
    ensures |f| == |refs|
    decreases depth, 0, 1 + |refs|
  {
    if refs == [] then [] else [NodeFor(g, refs[0], depth)] + Grow(g, refs[1..], depth)
  }

  /** Variables become leaves, everything else recurses one level down. */
  function NodeFor(g: Graph, r: Reference, depth: nat): Node
    requires depth > 0
    decreases depth, 0, 0
  {
    if r.variable then Leaf(r.target, r.name) else Branch(r.target, r.name, Unfold(g, r.target, depth - 1))
  }

  /** Number of nodes of a forest. */
  function Size(f: seq<Node>): nat {
    if f == [] then 0 else NodeSize(f[0]) + Size(f[1..])
  }

  function NodeSize(n: Node): nat {
    match n
    case Leaf(_, _) => 1
    case Branch(_, _, children) => 1 + Size(children)
  }

  function Height(f: seq<Node>): nat {
    if f == [] then 0 else Max(NodeHeight(f[0]), Height(f[1..]))
  }

  function NodeHeight(n: Node): nat {
    match n
    case Leaf(_, _) => 1
    case Branch(_, _, children) => 1 + Height(children)
  }

  /** The first `b` nodes of a forest in preorder, and what is left of `b`. */
  function Truncate(f: seq<Node>, b: nat): (seq<Node>, nat) {
    if f == [] || b == 0 then ([], b) else
      var (first, left) := TruncateNode(f[0], b);
      var (others, rest) := Truncate(f[1..], left);
      ([first] + others, rest)
  }

  function TruncateNode(n: Node, b: nat): (Node, nat)
    requires b > 0
  {
    match n
    case Leaf(_, _) => (n, b - 1)
    case Branch(id, name, children) =>
      var (kept, left) := Truncate(children, b - 1);
      (Branch(id, name, kept), left)
  }

  // --------------------------------------------------- which tree a graph gives

  /** How many references the first `p` answers hold. */
  function RefsBefore(answers: seq<Answer>, p: nat): nat
    requires p <= |answers| && forall i :: 0 <= i < p ==> answers[i].Page?
  {
    if p == 0 then 0 else RefsBefore(answers, p - 1) + |answers[p - 1].refs|
  }

  /** The references of `node`: those of the pages that are asked for, before the first answer that is none. */
  function References(g: Graph, node: NodeId): seq<Reference> { Drain(Capped(Answers(g, node))) }

  lemma {:induction false} RefsAfterFirst(answers: seq<Answer>, p: nat)
    requires 0 < p <= |answers| && forall i :: 0 <= i < p ==> answers[i].Page?
    ensures RefsBefore(answers, p) == |answers[0].refs| + RefsBefore(answers[1..], p - 1)
  {
    if p > 1 {
      RefsAfterFirst(answers, p - 1);
    }
  }

  lemma {:induction false} DrainAt(answers: seq<Answer>, p: nat, q: nat)
    requires p < |answers| && (forall i :: 0 <= i <= p ==> answers[i].Page?) && q < |answers[p].refs|
    ensures RefsBefore(answers, p) + q < |Drain(answers)|
    ensures Drain(answers)[RefsBefore(answers, p) + q] == answers[p].refs[q]
  {
    if p > 0 {
      RefsAfterFirst(answers, p);
      DrainAt(answers[1..], p - 1, q);
    }
  }

  lemma {:induction false} DrainLength(answers: seq<Answer>, p: nat)
    requires p <= |answers| && forall i :: 0 <= i < p ==> answers[i].Page?
    requires p < |answers| ==> !answers[p].Page?
    ensures |Drain(answers)| == RefsBefore(answers, p)
  {
    if p > 0 {
      RefsAfterFirst(answers, p);
      DrainLength(answers[1..], p - 1);
    }
  }

  lemma {:induction false} SameRefsBefore(a: seq<Answer>, b: seq<Answer>, p: nat)
    requires p <= |a| && a <= b && forall i :: 0 <= i < p ==> b[i].Page?
    ensures forall i :: 0 <= i < p ==> a[i].Page?
    ensures RefsBefore(a, p) == RefsBefore(b, p)
  {
    if p > 0 {
      SameRefsBefore(a, b, p - 1);
    }
  }

  /** The references by page and position: the q-th of page p, one of 65 at most, follows those of the pages before. */
  lemma ReferenceAt(g: Graph, node: NodeId, p: nat, q: nat)
    requires node in g && p < |g[node]| && p < 65 && (forall i :: 0 <= i <= p ==> g[node][i].Page?)
    requires q < |g[node][p].refs|
    ensures var at := RefsBefore(g[node], p) + q;
            at < |References(g, node)| && References(g, node)[at] == g[node][p].refs[q]
  {
    SameRefsBefore(Capped(g[node]), g[node], p);
    DrainAt(Capped(g[node]), p, q);
  }

  /** And there are no others: `p` pages are read, until the next answer is none, or after 65. */
  lemma ReferenceCount(g: Graph, node: NodeId, p: nat)
    requires node in g && p <= |g[node]| && p <= 65 && forall i :: 0 <= i < p ==> g[node][i].Page?
    requires p < |g[node]| && p < 65 ==> !g[node][p].Page?
    ensures |References(g, node)| == RefsBefore(g[node], p)
  {
    SameRefsBefore(Capped(g[node]), g[node], p);
    DrainLength(Capped(g[node]), p);
  }

  /**
   `nodes` show the references of `node`, in order: a variable as a leaf, anything else as a branch whose
   children show its own references one level less deep. All of them if the whole tree is shown.
   */
  ghost predicate Shows(g: Graph, node: NodeId, depth: nat, nodes: seq<Node>, whole: bool)
    decreases depth
  {
    if depth == 0 then nodes == []
    else
      var refs := References(g, node);
      && |nodes| <= |refs| && (whole ==> |nodes| == |refs|)
      && forall k :: 0 <= k < |nodes| ==>
        && nodes[k].id == refs[k].target && nodes[k].name == refs[k].name
        && (nodes[k].Leaf? <==> refs[k].variable)
        && (nodes[k].Branch? ==> Shows(g, refs[k].target, depth - 1, nodes[k].children, whole))
  }

  /** One of them. */
  ghost predicate ShowsOne(g: Graph, r: Reference, depth: nat, n: Node, whole: bool)
    requires depth > 0
  {
    && n.id == r.target && n.name == r.name && (n.Leaf? <==> r.variable)
    && (n.Branch? ==> Shows(g, r.target, depth - 1, n.children, whole))
  }

  lemma ShowsEach(g: Graph, node: NodeId, depth: nat, nodes: seq<Node>, whole: bool)
    requires depth > 0 && |nodes| <= |References(g, node)| && (whole ==> |nodes| == |References(g, node)|)
    requires forall k :: 0 <= k < |nodes| ==> ShowsOne(g, References(g, node)[k], depth, nodes[k], whole)
    ensures Shows(g, node, depth, nodes, whole)
  {
    var refs := References(g, node);
    forall k | 0 <= k < |nodes|
      ensures nodes[k].id == refs[k].target && nodes[k].name == refs[k].name
      ensures nodes[k].Leaf? <==> refs[k].variable
      ensures nodes[k].Branch? ==> Shows(g, refs[k].target, depth - 1, nodes[k].children, whole)
    {
      assert ShowsOne(g, refs[k], depth, nodes[k], whole);
    }
  }

  lemma CapReferences(g: Graph, node: NodeId)
    ensures Drain(Answers(Cap(g), node)) == References(g, node)
  {
    if node in g {
      assert Answers(Cap(g), node) == Capped(g[node]);
    }
  }

  /** Truncating the tree of a graph keeps what it shows, and all of it while budget is left. */
  lemma {:induction false} TruncatedShows(g: Graph, node: NodeId, depth: nat, b: nat)
    ensures var (nodes, left) := Truncate(Unfold(Cap(g), node, depth), b);
            Shows(g, node, depth, nodes, left > 0)
    decreases depth, 1, 0
  {
    if depth > 0 {
      CapReferences(g, node);
      TruncatedShowsRefs(g, References(g, node), depth, b);
      var (nodes, left) := Truncate(Grow(Cap(g), References(g, node), depth), b);
      ShowsEach(g, node, depth, nodes, left > 0);
    }
  }

  lemma {:induction false} TruncatedShowsRefs(g: Graph, refs: seq<Reference>, depth: nat, b: nat)
    requires depth > 0
    ensures var (nodes, left) := Truncate(Grow(Cap(g), refs, depth), b);
            && left <= b && |nodes| <= |refs| && (left > 0 ==> |nodes| == |refs|)
            && (forall k :: 0 <= k < |nodes| ==> ShowsOne(g, refs[k], depth, nodes[k], left > 0))
    decreases depth, 0, 1 + |refs|
  {
    if refs != [] && b > 0 {
      var (first, mid) := TruncateNode(NodeFor(Cap(g), refs[0], depth), b);
      var (others, left) := Truncate(Grow(Cap(g), refs[1..], depth), mid);
      TruncatedShowsOne(g, refs[0], depth, b);
      TruncatedShowsRefs(g, refs[1..], depth, mid);
      assert Grow(Cap(g), refs, depth)[1..] == Grow(Cap(g), refs[1..], depth);
      forall k | 0 <= k < 1 + |others|
        ensures ShowsOne(g, refs[k], depth, ([first] + others)[k], left > 0)
      {
        if k == 0 {
          ShowsLess(g, refs[0], depth, first, mid > 0, left > 0);
        } else {
          assert ShowsOne(g, refs[1..][k - 1], depth, others[k - 1], left > 0);
        }
      }
    }
  }

  lemma {:induction false} TruncatedShowsOne(g: Graph, r: Reference, depth: nat, b: nat)
    requires depth > 0 && b > 0
    ensures var (n, left) := TruncateNode(NodeFor(Cap(g), r, depth), b);
            left < b && ShowsOne(g, r, depth, n, left > 0)
    decreases depth, 0, 0
  {
    TruncateNodeSpends(NodeFor(Cap(g), r, depth), b);
    if !r.variable {
      TruncatedShows(g, r.target, depth - 1, b - 1);
    }
  }

  /** A whole tree shows part of itself. */
  lemma ShowsLess(g: Graph, r: Reference, depth: nat, n: Node, whole: bool, less: bool)
    requires depth > 0 && ShowsOne(g, r, depth, n, whole) && (less ==> whole)
    ensures ShowsOne(g, r, depth, n, less)
  {
    if n.Branch? {
      ShowsPart(g, r.target, depth - 1, n.children, whole, less);
    }
  }

  lemma {:induction false} ShowsPart(g: Graph, node: NodeId, depth: nat, nodes: seq<Node>, whole: bool, less: bool)
    requires Shows(g, node, depth, nodes, whole) && (less ==> whole)
    ensures Shows(g, node, depth, nodes, less)
    decreases depth
  {
    if depth > 0 {
      forall k | 0 <= k < |nodes| && nodes[k].Branch?
        ensures Shows(g, References(g, node)[k].target, depth - 1, nodes[k].children, less)
      {
        ShowsPart(g, References(g, node)[k].target, depth - 1, nodes[k].children, whole, less);
      }
    }
  }

  // ------------------------------------------------------------------- browser

  class Browser {
    const graph: Graph
    /** The shared node budget. */
    var budget: nat

    constructor (graph: Graph, budget: nat)
      ensures this.graph == graph && this.budget == budget
    {
      this.graph, this.budget := graph, budget;
    }

    /** The page loop: enough references of `node` to spend the budget, or all of the first 65 pages. */
    method Gather(node: NodeId) returns (allRefs: seq<Reference>)
      ensures var reachable := Drain(Capped(Answers(graph, node)));
              allRefs <= reachable && (allRefs == reachable || |allRefs| >= budget)
    {
      var answers := Answers(graph, node);
      ghost var asked := Capped(answers);
      allRefs := [];
      // cont: the index of the answer the continuation point stands for
      var cont: Option<nat> := None;
      if answers == [] {
        return;
      }
      GatherOne(asked, 0, []);
      match answers[0] {
        case Failed => return;
        case NoResult =>
        case Page(refs) =>
          allRefs := refs;
          cont := if |answers| > 1 then Some(1) else None;
      }
      var pages := 0;
      while cont.Some?
        invariant cont.Some? ==> 0 <= pages <= 64 && cont.value == pages + 1 < |answers|
        invariant cont.Some? ==> GatheredSoFar(asked, cont.value, allRefs)
        invariant cont.None? ==> allRefs == Drain(asked)
        decreases if cont.Some? then 1 + |answers| - cont.value else 0
      {
        var next := cont.value;
        pages := pages + 1;
        if pages > 64 || |allRefs| >= budget {
          break;
        }
        GatherOne(asked, next, allRefs);
        match answers[next] {
          case Failed =>
            cont := None;
          case NoResult =>
            cont := None;
          case Page(refs) =>
            allRefs := allRefs + refs;
            cont := if next + 1 < |answers| then Some(next + 1) else None;
        }
      }
    }

    method BrowseNode(node: NodeId, depth: nat) returns (nodes: seq<Node>)
      modifies this
      ensures (nodes, budget) == Truncate(Unfold(Cap(graph), node, depth), old(budget))
      ensures Shows(graph, node, depth, nodes, budget > 0)
      decreases depth, 1, 0
    {
      TruncatedShows(graph, node, depth, budget);
      if depth == 0 || budget == 0 {
        return [];
      }
      var allRefs := Gather(node);
      TruncateEnough(Cap(graph), allRefs, Drain(Answers(Cap(graph), node)), depth, budget);
      nodes := BrowseAll(allRefs, depth);
    }

    /** The loop over the references of a node. */
    method BrowseAll(allRefs: seq<Reference>, depth: nat) returns (nodes: seq<Node>)
      requires depth > 0
      modifies this
      ensures (nodes, budget) == Truncate(Grow(Cap(graph), allRefs, depth), old(budget))
      decreases depth, 0, 1
    {
      ghost var g := Cap(graph);
      ghost var whole := Truncate(Grow(g, allRefs, depth), budget);
      nodes := [];
      var i := 0;
      assert allRefs[i..] == allRefs && nodes + whole.0 == whole.0;
      while i < |allRefs|
        invariant i <= |allRefs|
        invariant PushedSoFar(whole, nodes, Grow(g, allRefs[i..], depth), budget)
      {
        if budget == 0 {
          break;
        }
        ghost var left := budget;
        budget := budget - 1;
        var child := BrowseReference(allRefs[i], depth, left);
        GrowFrom(g, allRefs, i, depth);
        PushOne(whole, nodes, Grow(g, allRefs[i..], depth), left, child, budget);
        nodes := nodes + [child];
        i := i + 1;
      }
      PushDone(whole, nodes, Grow(g, allRefs[i..], depth), budget);
    }

    /** One reference, its own node already paid for. */
    method BrowseReference(r: Reference, depth: nat, ghost left: nat) returns (child: Node)
      requires depth > 0 && left == budget + 1
      modifies this
      ensures (child, budget) == TruncateNode(NodeFor(Cap(graph), r, depth), left)
      decreases depth, 0, 0
    {
      if r.variable {
        child := Leaf(r.target, r.name);
      } else {
        var children := BrowseNode(r.target, depth - 1);
        child := Branch(r.target, r.name, children);
      }
    }
  }

  /** `nodes` are pushed so far; `rest` is still to be truncated to what is left of the budget. */
  ghost predicate PushedSoFar(whole: (seq<Node>, nat), nodes: seq<Node>, rest: seq<Node>, left: nat) {
    whole == (nodes + Truncate(rest, left).0, Truncate(rest, left).1)
  }

  lemma PushOne(whole: (seq<Node>, nat), nodes: seq<Node>, rest: seq<Node>, left: nat, child: Node, after: nat)
    requires PushedSoFar(whole, nodes, rest, left) && left > 0 && rest != []
    requires (child, after) == TruncateNode(rest[0], left)
    ensures PushedSoFar(whole, nodes + [child], rest[1..], after)
  {
    var others := Truncate(rest[1..], after).0;
    assert nodes + ([child] + others) == nodes + [child] + others;
  }

  /** The loop ends with no reference or no budget left. */
  lemma PushDone(whole: (seq<Node>, nat), nodes: seq<Node>, rest: seq<Node>, left: nat)
    requires PushedSoFar(whole, nodes, rest, left) && (rest == [] || left == 0)
    ensures whole == (nodes, left)
  {
    assert nodes + [] == nodes;
  }

  lemma GrowFrom(g: Graph, refs: seq<Reference>, i: nat, depth: nat)
    requires depth > 0 && i < |refs|
    ensures Grow(g, refs[i..], depth)[0] == NodeFor(g, refs[i], depth)
    ensures Grow(g, refs[i..], depth)[1..] == Grow(g, refs[i + 1..], depth)
  {
    assert refs[i..][1..] == refs[i + 1..];
  }

  /** The references of the first `k` answers; the rest are still to be drained. */
  ghost predicate GatheredSoFar(asked: seq<Answer>, k: nat, refs: seq<Reference>) {
    k <= |asked| && refs + Drain(asked[k..]) == Drain(asked) && (k == |asked| ==> refs == Drain(asked))
  }

  lemma GatherOne(asked: seq<Answer>, k: nat, refs: seq<Reference>)
    requires k < |asked| && refs + Drain(asked[k..]) == Drain(asked)
    ensures asked[k].Page? ==> GatheredSoFar(asked, k + 1, refs + asked[k].refs)
    ensures !asked[k].Page? ==> refs == Drain(asked)
  {
    assert asked[k..][1..] == asked[k + 1..];
    if asked[k].Page? {
      var page, later := asked[k].refs, Drain(asked[k + 1..]);
      assert refs + (page + later) == refs + page + later;
      if k + 1 == |asked| {
        assert later == [] && refs + page + [] == refs + page;
      }
    } else {
      assert refs + [] == refs;
    }
  }

  /** Truncating spends one unit of budget per node it keeps. */
  lemma {:induction false} TruncateSpends(f: seq<Node>, b: nat)
    ensures Size(Truncate(f, b).0) + Truncate(f, b).1 == b
    decreases f
  {
    if f != [] && b > 0 {
      var (first, left) := TruncateNode(f[0], b);
      TruncateNodeSpends(f[0], b);
      TruncateSpends(f[1..], left);
    }
  }

  lemma {:induction false} TruncateNodeSpends(n: Node, b: nat)
    requires b > 0
    ensures NodeSize(TruncateNode(n, b).0) + TruncateNode(n, b).1 == b
    ensures TruncateNode(n, b).1 < b
    decreases n
  {
    match n
    case Leaf(_, _) =>
    case Branch(_, _, children) => TruncateSpends(children, b - 1);
  }

  /** References past the budget do not matter: every reference costs at least one node. */
  lemma {:induction false} TruncateEnough(g: Graph, some: seq<Reference>, all: seq<Reference>, depth: nat, b: nat)
    requires depth > 0 && some <= all && (some == all || |some| >= b)
    ensures Truncate(Grow(g, some, depth), b) == Truncate(Grow(g, all, depth), b)
    decreases |some|
  {
    if some != [] && b > 0 {
      TruncateNodeSpends(NodeFor(g, some[0], depth), b);
      TruncateEnough(g, some[1..], all[1..], depth, TruncateNode(NodeFor(g, some[0], depth), b).1);
    }
  }

  // ------------------------------------------------------------------ theorems

  /** The nodes of a forest in preorder, as (id, is a leaf) pairs. */
  function Preorder(f: seq<Node>): (r: seq<(NodeId, bool)>)
  {
    if f == [] then [] else NodePreorder(f[0]) + Preorder(f[1..])
  }

  function NodePreorder(n: Node): (r: seq<(NodeId, bool)>)
  {
    match n
    case Leaf(id, _) => [(id, true)]
    case Branch(id, _, children) => [(id, false)] + Preorder(children)
  }

  /** Truncating keeps a prefix of the preorder, as long as the budget allows. */
  lemma {:induction false} TruncateIsPreorderPrefix(f: seq<Node>, b: nat)
    ensures Preorder(Truncate(f, b).0) == Preorder(f)[..Min(b, |Preorder(f)|)]
    ensures Truncate(f, b).1 == b - Min(b, |Preorder(f)|)
    decreases f
  {
    if f != [] && b > 0 {
      var (first, left) := TruncateNode(f[0], b);
      NodePreorderPrefix(f[0], b);
      TruncateIsPreorderPrefix(f[1..], left);
      assert ([first] + Truncate(f[1..], left).0)[1..] == Truncate(f[1..], left).0;
    }
  }

  lemma {:induction false} NodePreorderPrefix(n: Node, b: nat)
    requires b > 0
    ensures NodePreorder(TruncateNode(n, b).0) == NodePreorder(n)[..Min(b, |NodePreorder(n)|)]
    ensures TruncateNode(n, b).1 == b - Min(b, |NodePreorder(n)|)
    decreases n
  {
    match n
    case Leaf(_, _) =>
    case Branch(_, _, children) => TruncateIsPreorderPrefix(children, b - 1);
  }

  /** The browsed tree is never higher than the depth asked for, even on a cyclic graph. */
  lemma {:induction false} UnfoldHeight(g: Graph, node: NodeId, depth: nat)
    ensures Height(Unfold(g, node, depth)) <= depth
    decreases depth, 1, 0
  {
    if depth > 0 {
      GrowHeight(g, Drain(Answers(g, node)), depth);
    }
  }

  lemma {:induction false} GrowHeight(g: Graph, refs: seq<Reference>, depth: nat)
    requires depth > 0
    ensures Height(Grow(g, refs, depth)) <= depth
    decreases depth, 0, |refs|
  {
    if refs != [] {
      if !refs[0].variable {
        UnfoldHeight(g, refs[0].target, depth - 1);
      }
      GrowHeight(g, refs[1..], depth);
    }
  }

  lemma {:induction false} TruncateHeight(f: seq<Node>, b: nat)
    ensures Height(Truncate(f, b).0) <= Height(f)
    decreases f
  {
    if f != [] && b > 0 {
      var (first, left) := TruncateNode(f[0], b);
      TruncateNodeHeight(f[0], b);
      TruncateHeight(f[1..], left);
      assert ([first] + Truncate(f[1..], left).0)[1..] == Truncate(f[1..], left).0;
    }
  }

  lemma {:induction false} TruncateNodeHeight(n: Node, b: nat)
    requires b > 0
    ensures NodeHeight(TruncateNode(n, b).0) <= NodeHeight(n)
    decreases n
  {
    match n
    case Leaf(_, _) =>
    case Branch(_, _, children) => TruncateHeight(children, b - 1);
  }

  /** For every graph, depth and budget: bounded height, and exactly as many nodes as budget spent. */
  lemma BrowseBounds(g: Graph, node: NodeId, depth: nat, budget: nat)
    ensures var (nodes, left) := Truncate(Unfold(g, node, depth), budget);
            Height(nodes) <= depth && left <= budget && Size(nodes) == budget - left
  {
    UnfoldHeight(g, node, depth);
    TruncateHeight(Unfold(g, node, depth), budget);
    TruncateSpends(Unfold(g, node, depth), budget);
  }

  /** The pages of `node` before its first answer that is not a page. */
  function PageCount(answers: seq<Answer>): nat {
    if answers == [] || !answers[0].Page? then 0 else 1 + PageCount(answers[1..])
  }

  const MAX_DEPTH := 1
  const MAX_NODES := 1000

  /** The browse part of the plugin's `discover`. */
  method Discover(g: Graph, root: NodeId) returns (nodes: seq<Node>)
    ensures nodes == Truncate(Unfold(Cap(g), root, MAX_DEPTH), MAX_NODES).0
    ensures Height(nodes) <= 1 && Size(nodes) <= 1000
    ensures var refs := References(g, root);
            && |nodes| == Min(1000, |refs|)
            && forall k :: 0 <= k < |nodes| ==>
              nodes[k] == if refs[k].variable then Leaf(refs[k].target, refs[k].name)
                          else Branch(refs[k].target, refs[k].name, [])
  {
    CapReferences(g, root);
    FlatGrow(Cap(g), References(g, root), MAX_NODES);
    var browser := new Browser(g, MAX_NODES);
    nodes := browser.BrowseNode(root, MAX_DEPTH);
    BrowseBounds(Cap(g), root, MAX_DEPTH, MAX_NODES);
  }

  lemma {:induction false} DrainTaken(answers: seq<Answer>, k: nat)
    requires k <= |answers|
    ensures Drain(answers[..k]) <= Drain(answers)
    ensures PageCount(answers) <= k ==> Drain(answers[..k]) == Drain(answers)
  {
    if k > 0 && answers[0].Page? {
      assert answers[..k][1..] == answers[1..][..k - 1];
      DrainTaken(answers[1..], k - 1);
    }
  }

  /** With at most 65 pages a node, the bound on pages changes nothing: every page is as good as drained. */
  lemma {:induction false} CapIrrelevant(g: Graph, node: NodeId, depth: nat)
    requires forall n :: n in g ==> PageCount(g[n]) <= MAX_PAGES
    ensures Unfold(Cap(g), node, depth) == Unfold(g, node, depth)
    decreases depth, 1, 0
  {
    CapDrain(Answers(g, node));
    assert Answers(Cap(g), node) == Capped(Answers(g, node));
    if depth > 0 {
      CapGrow(g, Drain(Answers(g, node)), depth);
    }
  }

  lemma CapDrain(answers: seq<Answer>)
    requires PageCount(answers) <= MAX_PAGES
    ensures Drain(Capped(answers)) == Drain(answers)
  {
    if |answers| <= MAX_PAGES {
      assert Capped(answers) == answers;
    } else {
      DrainTaken(answers, MAX_PAGES);
    }
  }

  lemma {:induction false} CapGrow(g: Graph, refs: seq<Reference>, depth: nat)
    requires forall n :: n in g ==> PageCount(g[n]) <= MAX_PAGES
    requires depth > 0
    ensures Grow(Cap(g), refs, depth) == Grow(g, refs, depth)
    decreases depth, 0, |refs|
  {
    if refs != [] {
      CapIrrelevant(g, refs[0].target, depth - 1);
      CapGrow(g, refs[1..], depth);
    }
  }

  /**
   One level, the depth the plugin browses: stopping after 65 pages shows what draining every page
   would show, exactly when 65 pages hold all the references or enough to spend the budget.
   */
  lemma OneLevelExact(g: Graph, node: NodeId, budget: nat)
    ensures Truncate(Unfold(Cap(g), node, 1), budget).0 == Truncate(Unfold(g, node, 1), budget).0
        <==> var first := |Drain(Capped(Answers(g, node)))|;
             first == |Drain(Answers(g, node))| || first >= budget
  {
    var some, all := Drain(Capped(Answers(g, node))), Drain(Answers(g, node));
    DrainTaken(Answers(g, node), Min(MAX_PAGES, |Answers(g, node)|));
    assert Answers(Cap(g), node) == Capped(Answers(g, node));
    FlatGrow(Cap(g), some, budget);
    FlatGrow(g, all, budget);
    SameTargets(g, some);
    if |some| < budget && |some| != |all| {
      assert |Truncate(Grow(g, all, 1), budget).0| == Min(budget, |all|);
    } else {
      TruncateEnough(g, some, all, 1, budget);
    }
  }

  /** One level down, every node is alone. */
  lemma {:induction false} FlatGrow(g: Graph, refs: seq<Reference>, budget: nat)
    ensures |Truncate(Grow(g, refs, 1), budget).0| == Min(budget, |refs|)
  {
    if refs != [] && budget > 0 {
      assert TruncateNode(NodeFor(g, refs[0], 1), budget).1 == budget - 1 by {
        assert Unfold(g, refs[0].target, 0) == [];
      }
      assert Grow(g, refs, 1)[1..] == Grow(g, refs[1..], 1);
      FlatGrow(g, refs[1..], budget - 1);
    }
  }

  lemma {:induction false} SameTargets(g: Graph, refs: seq<Reference>)
    ensures Grow(Cap(g), refs, 1) == Grow(g, refs, 1)
  {
    if refs != [] {
      SameTargets(g, refs[1..]);
    }
  }
}
