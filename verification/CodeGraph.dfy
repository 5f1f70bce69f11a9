// The code graph: symbols, edges and HTTP endpoints of one indexed repository.
module CodeGraph {
  import opened Lists

  datatype SymbolKind = FileKind | FunctionKind | ClassKind | MethodKind
  datatype EdgeKind = Defines | References | Imports | Tests

  datatype Symbol = Symbol(
    id: string, kind: SymbolKind, path: string, name: string, line: nat, endLine: nat,
    signature: string, body: string, parentId: Option<string>, contentHash: string)

  // Every edge the builders create carries the weight 1.0, so weights are not recorded.
  datatype Edge = Edge(fromId: string, toId: string, kind: EdgeKind)

  datatype Role = Provider | Consumer

  datatype HttpEndpoint = HttpEndpoint(
    id: string, role: Role, httpMethod: string, route: string, normalizedRoute: string, path: string,
    line: nat, framework: string, symbolId: Option<string>, symbolName: Option<string>)

  // `nodes` is a dictionary keyed by symbol id, held as its values in insertion order.
  datatype Graph = Graph(nodes: seq<Symbol>, edges: seq<Edge>, endpoints: seq<HttpEndpoint>)

  ghost predicate DistinctIds(nodes: seq<Symbol>) {
    forall i, j | 0 <= i < j < |nodes| :: nodes[i].id != nodes[j].id
  }

  // nodes.get(id)
  function Find(nodes: seq<Symbol>, id: string): (found: Option<Symbol>)
    ensures found.Some? ==> found.value in nodes && found.value.id == id
    ensures found.None? ==> forall s | s in nodes :: s.id != id
  {
    if nodes == [] then None
    else if nodes[0].id == id then Some(nodes[0])
    else Find(nodes[1..], id)
  }

  // nodes[symbol.id] = symbol
  function Put(nodes: seq<Symbol>, symbol: Symbol): (result: seq<Symbol>)
    ensures DistinctIds(nodes) ==> DistinctIds(result)
    ensures forall s | s in result :: s == symbol || s in nodes
  {
    if nodes == [] then [symbol]
    else if nodes[0].id == symbol.id then [symbol] + nodes[1..]
    else
      var rest := Put(nodes[1..], symbol);
      assert DistinctIds(nodes) ==> forall s | s in nodes[1..] :: s.id != nodes[0].id;
      assert DistinctIds(nodes) ==> forall s | s in rest :: s.id != nodes[0].id;
      [nodes[0]] + rest
  }

  function PutAll(nodes: seq<Symbol>, symbols: seq<Symbol>): (result: seq<Symbol>)
    ensures DistinctIds(nodes) ==> DistinctIds(result)
    decreases |symbols|
  {
    if symbols == [] then nodes else PutAll(Put(nodes, symbols[0]), symbols[1..])
  }

  lemma {:induction false} PutAllAppend(nodes: seq<Symbol>, xs: seq<Symbol>, ys: seq<Symbol>)
    ensures PutAll(nodes, xs + ys) == PutAll(PutAll(nodes, xs), ys)
    decreases |xs|
  {
    if xs == [] {
      assert xs + ys == ys;
    } else {
      assert (xs + ys)[1..] == xs[1..] + ys;
      PutAllAppend(Put(nodes, xs[0]), xs[1..], ys);
    }
  }

  lemma {:induction false} PutFresh(nodes: seq<Symbol>, symbol: Symbol)
    requires forall s | s in nodes :: s.id != symbol.id
    ensures Put(nodes, symbol) == nodes + [symbol]
  {
    if nodes != [] {
      assert nodes[0] in nodes;
      PutFresh(nodes[1..], symbol);
    }
  }

  lemma {:induction false} PutAllDistinct(nodes: seq<Symbol>, symbols: seq<Symbol>)
    requires DistinctIds(nodes + symbols)
    ensures PutAll(nodes, symbols) == nodes + symbols
    decreases |symbols|
  {
    if symbols == [] {
      assert nodes + symbols == nodes;
    } else {
      var all := nodes + symbols;
      forall s | s in nodes ensures s.id != symbols[0].id {
        var k :| 0 <= k < |nodes| && nodes[k] == s;
        assert all[k] == s && all[|nodes|] == symbols[0];
      }
      PutFresh(nodes, symbols[0]);
      assert nodes + [symbols[0]] + symbols[1..] == all;
      PutAllDistinct(nodes + [symbols[0]], symbols[1..]);
    }
  }

  lemma {:induction false} FindDistinct(nodes: seq<Symbol>, s: Symbol)
    requires DistinctIds(nodes) && s in nodes
    ensures Find(nodes, s.id) == Some(s)
  {
    if nodes[0] != s {
      var k :| 0 < k < |nodes| && nodes[k] == s;
      assert nodes[1..][k - 1] == s;
      FindDistinct(nodes[1..], s);
    }
  }

  // The path of the file an edge leaves.
  function SourcePath(nodes: seq<Symbol>, e: Edge): string {
    match Find(nodes, e.fromId)
    case Some(s) => s.path
    case None => e.fromId
  }

  function HasIdAmong(ids: set<string>): Symbol -> bool {
    (s: Symbol) => s.id in ids
  }

  function JoinsAmong(ids: set<string>): Edge -> bool {
    (e: Edge) => e.fromId in ids && e.toId in ids
  }

  // ---- Storing a graph and reading it back -----------------------------------

  predicate Closed(nodes: seq<Symbol>, e: Edge) {
    Find(nodes, e.fromId).Some? && Find(nodes, e.toId).Some?
  }

  function ClosedAmong(nodes: seq<Symbol>): Edge -> bool {
    (e: Edge) => Closed(nodes, e)
  }

  // A relationship is created only between two stored symbols.
  function StoredEdges(g: Graph): seq<Edge> {
    Filter(g.edges, ClosedAmong(g.nodes))
  }

  // What a look-up may return for a stored graph: rows come back in any order.
  ghost predicate ReadBack(g: Graph, r: Option<Graph>) {
    if g.nodes == [] then r.None?
    else
      && r.Some? && DistinctIds(r.value.nodes)
      && multiset(r.value.nodes) == multiset(g.nodes)
      && multiset(r.value.edges) == multiset(StoredEdges(g))
  }
}
