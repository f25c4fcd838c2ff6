/** The search through the whole graph finds the first registered command that accepts the input. */
module CommandSearch {
  import opened Options
  import opened CommandWords
  import opened CommandNodes
  import opened CommandGraphs

  /** Links lead forward, which is what ends the recursion of the search. */
  ghost predicate Forward(nodes: seq<Node>) {
    forall i, j :: 0 <= i < |nodes| && 0 <= j < |nodes[i].children| ==> i < nodes[i].children[j] < |nodes|
  }

  /** The nodes the search reports from `idx` on, in order; links that do not lead forward count as missing. */
  function Search(nodes: seq<Node>, idx: nat, ws: seq<string>): seq<nat>
    requires idx < |nodes|
    decreases |nodes| - idx, 1, 0
  {
    var node := nodes[idx];
    if ws == [] then (if node.executable then [idx] else [])
    else match node.kind
      case Root => SearchAll(nodes, idx, node.children, ws)
      case Literal =>
        if node.name != Some(ws[0]) then []
        else (if |ws| == 1 && node.executable then [idx] else []) + SearchAll(nodes, idx, node.children, ws[1..])
      case Argument => [idx] + SearchAll(nodes, idx, node.children, ws[1..])
  }

  function SearchAll(nodes: seq<Node>, parent: nat, cs: seq<nat>, ws: seq<string>): seq<nat>
    requires parent < |nodes|
    decreases |nodes| - parent, 0, |cs|
  {
    if cs == [] then []
    else
      var c := cs[|cs| - 1];
      SearchAll(nodes, parent, cs[..|cs| - 1], ws) + if parent < c < |nodes| then Search(nodes, c, ws) else []
  }

  // ---------------------------------------------------------------------------------------------
  // The shape of a graph of commands
  // ---------------------------------------------------------------------------------------------

  /** The linked chain of a command occupies the nodes from `b` on. */
  ghost predicate BlockAt(nodes: seq<Node>, b: nat, chain: seq<Node>) {
    b + |chain| <= |nodes| && forall k :: 0 <= k < |chain| ==> nodes[b + k] == LinkedNode(chain, k, b)
  }

  /** The children of the root: where each non-empty chain begins. */
  function Starts(reg: Registry): seq<nat> {
    match reg
    case Nothing => []
    case Pushed(before, cmd) => Starts(before) + if Size(cmd) == 0 then [] else [Total(before)]
  }

  /** `sub` is what had been pushed at some earlier moment. */
  predicate Within(sub: Registry, reg: Registry) {
    sub == reg || (reg.Pushed? && Within(sub, reg.before))
  }

  /** The moment `sub` is the push of a command whose chain has a node `k`. */
  ghost predicate HasNode(sub: Registry, reg: Registry, k: nat) {
    sub.Pushed? && Within(sub, reg) && k < Size(sub.cmd)
  }

  /** Where the chain of the command pushed last begins. */
  function Base(sub: Registry): nat
    requires sub.Pushed?
  {
    Total(sub.before)
  }

  lemma HungShape(nodes: seq<Node>, chain: seq<Node>)
    requires nodes != []
    ensures BlockAt(Hung(nodes, chain), |nodes|, chain)
    ensures forall i :: 0 < i < |nodes| ==> Hung(nodes, chain)[i] == nodes[i]
    ensures Hung(nodes, chain)[0] ==
            nodes[0].(children := nodes[0].children + if chain == [] then [] else [|nodes|])
  {
    forall k | 0 <= k < |chain|
      ensures Hung(nodes, chain)[|nodes| + k] == LinkedNode(chain, k, |nodes|)
    {
      LinkedAt(chain, |nodes|, k);
    }
  }

  lemma {:induction false} GraphRoot(reg: Registry)
    ensures GraphOf(reg)[0] == ROOT.(children := Starts(reg))
  {
    if reg.Pushed? {
      GraphRoot(reg.before);
      HungShape(GraphOf(reg.before), Chain(reg.cmd));
    }
  }

  lemma {:induction false} GraphBlock(sub: Registry, reg: Registry)
    requires sub.Pushed? && Within(sub, reg)
    ensures BlockAt(GraphOf(reg), Base(sub), Chain(sub.cmd))
  {
    HungShape(GraphOf(reg.before), Chain(reg.cmd));
    if sub != reg {
      GraphBlock(sub, reg.before);
    }
  }

  /** Node `k` of the chain pushed at `sub`, as it stands in the graph. */
  lemma GraphNode(sub: Registry, reg: Registry, k: nat)
    requires HasNode(sub, reg, k)
    ensures Base(sub) + k < Total(reg)
    ensures GraphOf(reg)[Base(sub) + k] == LinkedNode(Chain(sub.cmd), k, Base(sub))
  {
    GraphBlock(sub, reg);
  }

  /** Every node but the root belongs to the chain of one command. */
  lemma {:induction false} Locate(reg: Registry, idx: nat) returns (sub: Registry, k: nat)
    requires 0 < idx < Total(reg)
    ensures HasNode(sub, reg, k) && idx == Base(sub) + k
  {
    if idx < Total(reg.before) {
      sub, k := Locate(reg.before, idx);
    } else {
      sub, k := reg, idx - Total(reg.before);
    }
  }

  lemma {:induction false} StartsAreBases(reg: Registry, idx: nat) returns (sub: Registry)
    requires idx in Starts(reg)
    ensures HasNode(sub, reg, 0) && idx == Base(sub)
  {
    if idx in Starts(reg.before) {
      sub := StartsAreBases(reg.before, idx);
    } else {
      sub := reg;
    }
  }

  lemma {:induction false} BaseIsStart(sub: Registry, reg: Registry)
    requires HasNode(sub, reg, 0)
    ensures Base(sub) in Starts(reg)
  {
    if sub != reg {
      BaseIsStart(sub, reg.before);
    }
  }

  /** Chains pushed at different moments do not overlap. */
  lemma {:induction false} SamePlace(a: Registry, k: nat, b: Registry, l: nat, reg: Registry)
    requires HasNode(a, reg, k) && HasNode(b, reg, l) && Base(a) + k == Base(b) + l
    ensures a == b && k == l
  {
    if a == reg && b != reg {
      GraphNode(b, reg.before, l);
    } else if b == reg && a != reg {
      GraphNode(a, reg.before, k);
    } else if a != reg {
      SamePlace(a, k, b, l, reg.before);
    }
  }

  lemma {:induction false} GraphIsForward(reg: Registry)
    ensures Forward(GraphOf(reg))
  {
    var g := GraphOf(reg);
    GraphRoot(reg);
    forall i, j | 0 <= i < |g| && 0 <= j < |g[i].children|
      ensures i < g[i].children[j] < |g|
    {
      if i == 0 {
        var sub := StartsAreBases(reg, g[i].children[j]);
        GraphNode(sub, reg, 0);
      } else {
        var sub, k := Locate(reg, i);
        GraphNode(sub, reg, k);
        if k + 1 < Size(sub.cmd) {
          GraphNode(sub, reg, k + 1);
        }
      }
    }
  }

  // ---------------------------------------------------------------------------------------------
  // Searching
  // ---------------------------------------------------------------------------------------------

  function Shift(ks: seq<nat>, b: nat): (r: seq<nat>)
    ensures |r| == |ks| && forall i :: 0 <= i < |ks| ==> r[i] == ks[i] + b
  {
    seq(|ks|, i requires 0 <= i < |ks| => ks[i] + b)
  }

  lemma ShiftAppend(p: seq<nat>, q: seq<nat>, b: nat)
    ensures Shift(p + q, b) == Shift(p, b) + Shift(q, b)
  {
  }

  /** Below the root the search follows one chain. */
  lemma {:induction false} SearchBlock(nodes: seq<Node>, b: nat, chain: seq<Node>, k: nat, ws: seq<string>)
    requires BlockAt(nodes, b, chain) && k < |chain|
    requires forall i :: 0 <= i < |chain| ==> chain[i].kind != Root
    ensures Search(nodes, b + k, ws) == Shift(Visit(chain, k, ws), b)
    decreases |chain| - k
  {
    assert nodes[b + k] == LinkedNode(chain, k, b);
    if ws != [] {
      if k + 1 < |chain| {
        SearchBlock(nodes, b, chain, k + 1, ws[1..]);
      }
      SearchBlockStep(nodes, b, chain, k, ws);
    }
  }

  lemma {:induction false} SearchBlockStep(nodes: seq<Node>, b: nat, chain: seq<Node>, k: nat, ws: seq<string>)
    requires b + |chain| <= |nodes| && k < |chain| && ws != []
    requires nodes[b + k] == LinkedNode(chain, k, b) && chain[k].kind != Root
    requires SearchAll(nodes, b + k, nodes[b + k].children, ws[1..]) == Shift(VisitNext(chain, k, ws[1..]), b)
    ensures Search(nodes, b + k, ws) == Shift(Visit(chain, k, ws), b)
  {
    var rest := VisitNext(chain, k, ws[1..]);
    ShiftAppend([k], rest, b);
    ShiftAppend([], rest, b);
    assert Shift([k], b) == [b + k];
  }

  lemma ChainHasNoRoot(cmd: Form)
    ensures forall i :: 0 <= i < |Chain(cmd)| ==> Chain(cmd)[i].kind != Root
  {
    forall i | 0 <= i < |Chain(cmd)|
      ensures Chain(cmd)[i].kind != Root
    {
      ChainNodes(cmd, i);
    }
  }

  /** The moment the first accepting command was pushed. */
  function FirstMoment(sub: Registry, ws: seq<string>): (m: Registry)
    ensures m.Pushed? ==> Size(m.cmd) > 0
  {
    match sub
    case Nothing => Nothing
    case Pushed(before, cmd) =>
      var m := FirstMoment(before, ws);
      if m.Pushed? then m else if Accepts(cmd, ws) then sub else Nothing
  }

  lemma {:induction false} FirstMomentIs(sub: Registry, ws: seq<string>)
    ensures var m := FirstMoment(sub, ws);
            && (m.Nothing? <==> FirstAccepting(sub, ws).None?)
            && (m.Pushed? ==> Within(m, sub) && FirstAccepting(sub, ws) == Some(m.cmd) && Accepts(m.cmd, ws))
  {
    if sub.Pushed? {
      FirstMomentIs(sub.before, ws);
    }
  }

  /** `found` is what the search over some commands should report if the first accepting one was pushed at `m`:
      nothing, or first a node of its chain. */
  ghost predicate FirstIs(m: Registry, ws: seq<string>, found: seq<nat>)
    requires m.Pushed? ==> Size(m.cmd) > 0
  {
    if m.Nothing? then found == []
    else found != [] && found[0] >= Base(m) && found[0] - Base(m) in Visit(Chain(m.cmd), 0, ws)
  }

  ghost predicate FoundFirst(sub: Registry, ws: seq<string>, found: seq<nat>) {
    FirstIs(FirstMoment(sub, ws), ws, found)
  }

  ghost predicate BelowRoot(nodes: seq<Node>, cs: seq<nat>) {
    nodes != [] && forall j :: 0 <= j < |cs| ==> 0 < cs[j] < |nodes|
  }

  lemma SearchSnoc(nodes: seq<Node>, cs: seq<nat>, c: nat, ws: seq<string>)
    requires BelowRoot(nodes, cs) && BelowRoot(nodes, cs + [c])
    ensures c < |nodes| && SearchAll(nodes, 0, cs + [c], ws) == SearchAll(nodes, 0, cs, ws) + Search(nodes, c, ws)
  {
    assert (cs + [c])[|cs|] == c && (cs + [c])[..|cs|] == cs;
  }

  lemma {:induction false} SearchCommands(sub: Registry, reg: Registry, ws: seq<string>)
    requires Within(sub, reg) && ws != [] && BelowRoot(GraphOf(reg), Starts(sub))
    ensures FoundFirst(sub, ws, SearchAll(GraphOf(reg), 0, Starts(sub), ws))
  {
    if sub.Pushed? {
      var g, pre := GraphOf(reg), Starts(sub.before);
      assert pre <= Starts(sub);
      WithinBefore(sub, reg);
      SearchCommands(sub.before, reg, ws);
      FoundFirstStep(sub, ws, SearchAll(g, 0, pre, ws));
      if Size(sub.cmd) > 0 {
        assert Starts(sub) == pre + [Base(sub)];
        SearchSnoc(g, pre, Base(sub), ws);
        SearchCommandAt(sub, reg, ws);
      } else {
        assert Starts(sub) == pre;
      }
    }
  }

  lemma {:induction false} WithinBefore(sub: Registry, reg: Registry)
    requires sub.Pushed? && Within(sub, reg)
    ensures Within(sub.before, reg)
  {
    if sub != reg {
      WithinBefore(sub, reg.before);
    }
  }

  lemma SearchCommandAt(sub: Registry, reg: Registry, ws: seq<string>)
    requires HasNode(sub, reg, 0) && Base(sub) < Total(reg)
    ensures Search(GraphOf(reg), Base(sub), ws) == Shift(Visit(Chain(sub.cmd), 0, ws), Base(sub))
  {
    GraphBlock(sub, reg);
    ChainHasNoRoot(sub.cmd);
    SearchBlock(GraphOf(reg), Base(sub), Chain(sub.cmd), 0, ws);
  }

  lemma FirstFound(sub: Registry, ws: seq<string>)
    requires sub.Pushed? && Size(sub.cmd) > 0 && ws != []
    ensures FirstIs(if Accepts(sub.cmd, ws) then sub else Nothing, ws, Shift(Visit(Chain(sub.cmd), 0, ws), Base(sub)))
  {
    var v := Visit(Chain(sub.cmd), 0, ws);
    SearchAccepts(sub.cmd, ws);
    assert v != [] ==> v[0] in v;
  }

  lemma FoundFirstStep(sub: Registry, ws: seq<string>, found: seq<nat>)
    requires sub.Pushed? && ws != [] && FoundFirst(sub.before, ws, found)
    ensures Size(sub.cmd) == 0 ==> FoundFirst(sub, ws, found)
    ensures Size(sub.cmd) > 0 ==>
              FoundFirst(sub, ws, found + Shift(Visit(Chain(sub.cmd), 0, ws), Base(sub)))
  {
    var m := FirstMoment(sub.before, ws);
    if Size(sub.cmd) > 0 {
      var more := Shift(Visit(Chain(sub.cmd), 0, ws), Base(sub));
      if !m.Pushed? {
        FirstFound(sub, ws);
        assert found + more == more;
      }
    }
  }

  // ---------------------------------------------------------------------------------------------
  // Recovering the name
  // ---------------------------------------------------------------------------------------------

  predicate IsParent(nodes: seq<Node>, p: nat, idx: nat) {
    p < |nodes| && idx in nodes[p].children
  }

  function OwnPart(node: Node): seq<string> {
    if node.name.Some? && node.kind == Literal then [node.name.value] else []
  }

  /** The literal names from node `idx` up through its parents to the root. */
  ghost function PartsUp(nodes: seq<Node>, idx: nat): seq<string>
    requires idx < |nodes|
  {
    OwnPart(nodes[idx]) +
    if exists p: nat :: EarlierParent(nodes, p, idx)
    then (var p: nat :| EarlierParent(nodes, p, idx); PartsUp(nodes, p))
    else []
  }

  predicate EarlierParent(nodes: seq<Node>, p: nat, idx: nat) {
    p < idx && IsParent(nodes, p, idx)
  }

  ghost predicate OnlyParent(nodes: seq<Node>, p: nat, idx: nat) {
    IsParent(nodes, p, idx) && forall q: nat {:trigger IsParent(nodes, q, idx)} :: IsParent(nodes, q, idx) ==> q == p
  }

  lemma PartsStep(nodes: seq<Node>, p: nat, idx: nat)
    requires p < idx < |nodes| && OnlyParent(nodes, p, idx)
    ensures PartsUp(nodes, idx) == OwnPart(nodes[idx]) + PartsUp(nodes, p)
  {
    assert EarlierParent(nodes, p, idx);
  }

  /** The first `k + 1` words of a name, last first. */
  function UpTo(name: seq<string>, k: nat): seq<string> {
    (if k < |name| then [name[k]] else []) + (if k > 0 then UpTo(name, k - 1) else [])
  }

  lemma {:induction false} UpToIsReversed(name: seq<string>, k: nat)
    ensures UpTo(name, k) == Reversed(name[..if k + 1 < |name| then k + 1 else |name|])
  {
    if k > 0 {
      UpToIsReversed(name, k - 1);
    }
    if k < |name| {
      assert name[..k + 1] == name[..k] + [name[k]];
      ReversedAppend(name[..k], name[k]);
    }
  }

  lemma RootIsParent(sub: Registry, reg: Registry, k: nat)
    requires HasNode(sub, reg, k) && IsParent(GraphOf(reg), 0, Base(sub) + k)
    ensures k == 0
  {
    GraphRoot(reg);
    var other := StartsAreBases(reg, Base(sub) + k);
    SamePlace(sub, k, other, 0, reg);
  }

  lemma ChainIsParent(sub: Registry, reg: Registry, k: nat, q: nat)
    requires HasNode(sub, reg, k) && q > 0 && IsParent(GraphOf(reg), q, Base(sub) + k)
    ensures k > 0 && q == Base(sub) + k - 1
  {
    var other, l := Locate(reg, q);
    GraphNode(other, reg, l);
    SamePlace(sub, k, other, l + 1, reg);
  }

  /** The parent of a chain's first node is the root, that of a later node its predecessor, and no other. */
  lemma ParentInGraph(sub: Registry, reg: Registry, k: nat)
    requires HasNode(sub, reg, k)
    ensures OnlyParent(GraphOf(reg), if k == 0 then 0 else Base(sub) + k - 1, Base(sub) + k)
  {
    hide GraphOf, Chain;
    var idx := Base(sub) + k;
    if k == 0 {
      GraphRoot(reg);
      BaseIsStart(sub, reg);
    } else {
      GraphNode(sub, reg, k - 1);
    }
    forall q: nat | IsParent(GraphOf(reg), q, idx)
      ensures q == if k == 0 then 0 else idx - 1
    {
      if q == 0 {
        RootIsParent(sub, reg, k);
      } else {
        ChainIsParent(sub, reg, k, q);
      }
    }
  }

  lemma PartsOfRoot(reg: Registry)
    ensures PartsUp(GraphOf(reg), 0) == []
  {
    GraphRoot(reg);
  }

  /** Walking up from node `j` of a chain at `b` yields its own part, then what the walk from the node before
      yields. */
  ghost predicate Rung(g: seq<Node>, b: nat, words: seq<string>, j: nat) {
    && b + j < |g|
    && PartsUp(g, b + j) ==
       (if j < |words| then [words[j]] else []) + if j > 0 then PartsUp(g, b + j - 1) else []
  }

  /** Walking up from node `k` of a chain collects the first literals of the name, last first. */
  lemma {:induction false} Ascend(g: seq<Node>, b: nat, words: seq<string>, k: nat)
    requires forall j: nat :: j <= k ==> Rung(g, b, words, j)
    ensures b + k < |g| && PartsUp(g, b + k) == UpTo(words, k)
  {
    hide PartsUp;
    assert Rung(g, b, words, k);
    if k > 0 {
      Ascend(g, b, words, k - 1);
    }
  }

  lemma RungFromParent(g: seq<Node>, b: nat, words: seq<string>, k: nat)
    requires 0 < b && b + k < |g| && OnlyParent(g, if k == 0 then 0 else b + k - 1, b + k) && PartsUp(g, 0) == []
    requires OwnPart(g[b + k]) == if k < |words| then [words[k]] else []
    ensures Rung(g, b, words, k)
  {
    PartsStep(g, if k == 0 then 0 else b + k - 1, b + k);
  }

  lemma {:induction false} ChainHasRung(sub: Registry, reg: Registry, k: nat)
    requires HasNode(sub, reg, k)
    ensures Rung(GraphOf(reg), Base(sub), sub.cmd.words, k)
  {
    hide GraphOf, Chain;
    GraphNode(sub, reg, k);
    ChainNodes(sub.cmd, k);
    ParentInGraph(sub, reg, k);
    PartsOfRoot(reg);
    RungFromParent(GraphOf(reg), Base(sub), sub.cmd.words, k);
  }

  function Reversed(s: seq<string>): (r: seq<string>)
    ensures |r| == |s|
  {
    if s == [] then [] else Reversed(s[1..]) + [s[0]]
  }

  lemma {:induction false} ReversedAppend(s: seq<string>, x: string)
    ensures Reversed(s + [x]) == [x] + Reversed(s)
  {
    if s == [] {
      assert s + [x] == [x];
      assert Reversed([x]) == Reversed([x][1..]) + [x];
    } else {
      assert (s + [x])[1..] == s[1..] + [x];
      ReversedAppend(s[1..], x);
    }
  }

  lemma {:induction false} ReversedTwice(s: seq<string>)
    ensures Reversed(Reversed(s)) == s
  {
    if s != [] {
      ReversedAppend(Reversed(s[1..]), s[0]);
      ReversedTwice(s[1..]);
    }
  }

  /** Search result and recovered name together: the name of the first registered command that accepts. */
  ghost function FoundName(nodes: seq<Node>, ws: seq<string>): Option<string>
    requires nodes != []
  {
    var found := Search(nodes, 0, ws);
    if found == [] || found[0] >= |nodes| then None else Some(Join(Reversed(PartsUp(nodes, found[0]))))
  }

  lemma UpToWhole(words: seq<string>, k: nat)
    requires |words| <= k + 1
    ensures Reversed(UpTo(words, k)) == words
  {
    UpToIsReversed(words, k);
    assert words[..|words|] == words;
    ReversedTwice(words);
  }

  lemma NameFromRungs(g: seq<Node>, b: nat, words: seq<string>, k: nat)
    requires (forall j: nat :: j <= k ==> Rung(g, b, words, j)) && |words| <= k + 1
    ensures b + k < |g| && Reversed(PartsUp(g, b + k)) == words
  {
    Ascend(g, b, words, k);
    UpToWhole(words, k);
  }

  lemma NameFromNode(sub: Registry, reg: Registry, k: nat)
    requires HasNode(sub, reg, k) && |sub.cmd.words| <= k + 1
    ensures Base(sub) + k < Total(reg) && Reversed(PartsUp(GraphOf(reg), Base(sub) + k)) == sub.cmd.words
  {
    hide GraphOf, PartsUp, Reversed, Rung;
    forall j: nat | j <= k
      ensures Rung(GraphOf(reg), Base(sub), sub.cmd.words, j)
    {
      ChainHasRung(sub, reg, j);
    }
    NameFromRungs(GraphOf(reg), Base(sub), sub.cmd.words, k);
  }

  lemma NameOfFound(sub: Registry, reg: Registry, ws: seq<string>, idx: nat)
    requires HasNode(sub, reg, 0) && idx >= Base(sub)
    requires idx - Base(sub) in Visit(Chain(sub.cmd), 0, ws)
    ensures idx < Total(reg) && Reversed(PartsUp(GraphOf(reg), idx)) == sub.cmd.words
  {
    hide GraphOf, Chain, Visit, PartsUp, Reversed;
    ReportedKnowName(sub.cmd, 0, ws);
    NameFromNode(sub, reg, idx - Base(sub));
  }

  /** SEARCH.  For any commands pushed and any input, the graph yields the space-joined words of the first
      registered command that accepts the words of the input, and nothing if there is none. */
  lemma FindsFirstAccepting(reg: Registry, ws: seq<string>)
    ensures FoundName(GraphOf(reg), ws) ==
            match FirstAccepting(reg, ws) case Some(cmd) => Some(Join(cmd.words)) case None => None
  {
    GraphIsForward(reg);
    GraphRoot(reg);
    if ws == [] {
      NoneAcceptEmpty(reg);
    } else {
      SearchCommands(reg, reg, ws);
      FirstMomentIs(reg, ws);
      var m := FirstMoment(reg, ws);
      if m.Pushed? {
        NameOfFound(m, reg, ws, Search(GraphOf(reg), 0, ws)[0]);
      }
    }
  }

  lemma {:induction false} NoneAcceptEmpty(reg: Registry)
    ensures FirstAccepting(reg, []) == None
  {
    if reg.Pushed? {
      NoneAcceptEmpty(reg.before);
    }
  }
}
