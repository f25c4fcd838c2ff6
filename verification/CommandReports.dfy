/** What the search reports: the nodes it finds, and the words it has left behind each of them. */
module CommandReports {
  import opened Options
  import opened CommandNodes
  import opened CommandGraphs
  import opened CommandSearch

  datatype Report = Report(node: nat, rest: seq<string>)

  /** The search with the words left at each report. */
  function Reports(nodes: seq<Node>, idx: nat, ws: seq<string>): seq<Report>
    requires idx < |nodes|
    decreases |nodes| - idx, 1, 0
  {
    var node := nodes[idx];
    if ws == [] then (if node.executable then [Report(idx, [])] else [])
    else match node.kind
      case Root => ReportsAll(nodes, idx, node.children, ws)
      case Literal =>
        if node.name != Some(ws[0]) then []
        else (if |ws| == 1 && node.executable then [Report(idx, [])] else []) +
             ReportsAll(nodes, idx, node.children, ws[1..])
      case Argument => [Report(idx, ws[1..])] + ReportsAll(nodes, idx, node.children, ws[1..])
  }

  function ReportsAll(nodes: seq<Node>, parent: nat, cs: seq<nat>, ws: seq<string>): seq<Report>
    requires parent < |nodes|
    decreases |nodes| - parent, 0, |cs|
  {
    if cs == [] then []
    else
      var c := cs[|cs| - 1];
      ReportsAll(nodes, parent, cs[..|cs| - 1], ws) + if parent < c < |nodes| then Reports(nodes, c, ws) else []
  }

  function NodesOf(rs: seq<Report>): (r: seq<nat>)
    ensures |r| == |rs| && forall i :: 0 <= i < |rs| ==> r[i] == rs[i].node
  {
    if rs == [] then [] else NodesOf(rs[..|rs| - 1]) + [rs[|rs| - 1].node]
  }

  lemma NodesAppend(p: seq<Report>, q: seq<Report>)
    ensures NodesOf(p + q) == NodesOf(p) + NodesOf(q)
  {
  }

  /** The reports name the nodes the search finds, in the same order. */
  lemma {:induction false} ReportsAreSearch(nodes: seq<Node>, idx: nat, ws: seq<string>)
    requires idx < |nodes|
    ensures NodesOf(Reports(nodes, idx, ws)) == Search(nodes, idx, ws)
    decreases |nodes| - idx, 1, 0
  {
    hide NodesOf, ReportsAll, SearchAll;
    var node := nodes[idx];
    NodesOfOne(idx, if ws == [] then [] else ws[1..]);
    NodesOfOne(idx, []);
    if ws != [] {
      var left := if node.kind == Root then ws else ws[1..];
      var below := ReportsAll(nodes, idx, node.children, left);
      AllReportsAreSearch(nodes, idx, node.children, left);
      NodesAppend([Report(idx, [])], below);
      NodesAppend([], below);
      NodesAppend([Report(idx, ws[1..])], below);
    }
  }

  lemma NodesOfOne(idx: nat, rest: seq<string>)
    ensures NodesOf([Report(idx, rest)]) == [idx] && NodesOf([]) == []
  {
  }

  lemma {:induction false} AllReportsAreSearch(nodes: seq<Node>, parent: nat, cs: seq<nat>, ws: seq<string>)
    requires parent < |nodes|
    ensures NodesOf(ReportsAll(nodes, parent, cs, ws)) == SearchAll(nodes, parent, cs, ws)
    decreases |nodes| - parent, 0, |cs|
  {
    if cs != [] {
      var pre, c := cs[..|cs| - 1], cs[|cs| - 1];
      AllReportsAreSearch(nodes, parent, pre, ws);
      if parent < c < |nodes| {
        ReportsAreSearch(nodes, c, ws);
        NodesAppend(ReportsAll(nodes, parent, pre, ws), Reports(nodes, c, ws));
      }
    }
  }

  /** What is left of the words behind the `n` first ones. */
  function Behind(ws: seq<string>, n: nat): seq<string> {
    ws[if n <= |ws| then n else |ws|..]
  }

  /** The node is node `m` of the chain at `b`, reached from node `k`, and the words left are those behind it. */
  predicate LeftBehind(r: Report, b: nat, k: nat, m: nat, ws: seq<string>) {
    k <= m && r.node == b + m && r.rest == Behind(ws, m - k + 1)
  }

  lemma {:induction false} RestsInChain(nodes: seq<Node>, b: nat, chain: seq<Node>, k: nat, ws: seq<string>, r: Report)
    returns (m: nat)
    requires BlockAt(nodes, b, chain) && k < |chain| && r in Reports(nodes, b + k, ws)
    requires forall i :: 0 <= i < |chain| ==> chain[i].kind != Root
    ensures m < |chain| && LeftBehind(r, b, k, m, ws)
    decreases |chain| - k
  {
    assert nodes[b + k] == LinkedNode(chain, k, b);
    m := k;
    if ws != [] && r != Report(b + k, Behind(ws, 1)) {
      var cs := nodes[b + k].children;
      assert r in ReportsAll(nodes, b + k, cs, ws[1..]);
      if k + 1 < |chain| {
        assert cs == [b + k + 1] && cs[..0] == [];
        m := RestsInChain(nodes, b, chain, k + 1, ws[1..], r);
      }
    }
  }

  lemma {:induction false} BelowSomeChild(nodes: seq<Node>, parent: nat, cs: seq<nat>, ws: seq<string>, r: Report)
    returns (c: nat)
    requires parent < |nodes| && r in ReportsAll(nodes, parent, cs, ws)
    ensures c in cs && parent < c < |nodes| && r in Reports(nodes, c, ws)
  {
    var pre, last := cs[..|cs| - 1], cs[|cs| - 1];
    if r in ReportsAll(nodes, parent, pre, ws) {
      c := BelowSomeChild(nodes, parent, pre, ws, r);
    } else {
      c := last;
    }
  }

  /** REPORTS.  Every report of a search names a node of one pushed command, and beside it the words behind that
      node: all words of the input but as many as the chain down to the node consumed. */
  lemma ReportedRests(reg: Registry, ws: seq<string>, r: Report) returns (sub: Registry, m: nat)
    requires ws != [] && r in Reports(GraphOf(reg), 0, ws)
    ensures HasNode(sub, reg, m) && r.node == Base(sub) + m && r.rest == Behind(ws, m + 1)
  {
    hide GraphOf, Reports, ReportsAll, Starts, Chain, BlockAt, Within;
    FromRoot(reg, ws);
    var c := BelowSomeChild(GraphOf(reg), 0, Starts(reg), ws, r);
    sub := StartsAreBases(reg, c);
    m := BelowBase(sub, reg, ws, r);
  }

  lemma FromRoot(reg: Registry, ws: seq<string>)
    requires ws != []
    ensures Reports(GraphOf(reg), 0, ws) == ReportsAll(GraphOf(reg), 0, Starts(reg), ws)
  {
    GraphRoot(reg);
    hide GraphOf, ReportsAll;
  }

  lemma BelowBase(sub: Registry, reg: Registry, ws: seq<string>, r: Report) returns (m: nat)
    requires HasNode(sub, reg, 0) && Base(sub) < Total(reg) && r in Reports(GraphOf(reg), Base(sub), ws)
    ensures HasNode(sub, reg, m) && r.node == Base(sub) + m && r.rest == Behind(ws, m + 1)
  {
    hide GraphOf, Reports, BlockAt;
    GraphBlock(sub, reg);
    ChainHasNoRoot(sub.cmd);
    m := RestsInChain(GraphOf(reg), Base(sub), Chain(sub.cmd), 0, ws, r);
  }
}
