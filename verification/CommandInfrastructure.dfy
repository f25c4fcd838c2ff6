/** The command graph and the table of commands as the server changes and searches them. */
module CommandInfrastructure {
  import opened Options
  import opened CommandWords
  import opened CommandNodes
  import opened CommandGraphs
  import opened CommandSearch
  import opened CommandReports

  /** A reported node and the input left behind it. */
  datatype Match = Match(node: nat, remaining: string)

  /** The matches as the search on words states them. */
  function AsReports(ms: seq<Match>): (r: seq<Report>)
    ensures |r| == |ms|
  {
    if ms == [] then [] else AsReports(ms[..|ms| - 1]) + [Report(ms[|ms| - 1].node, Words(ms[|ms| - 1].remaining))]
  }

  lemma AsReportsSnoc(ms: seq<Match>, m: Match)
    ensures AsReports(ms + [m]) == AsReports(ms) + [Report(m.node, Words(m.remaining))]
  {
    assert (ms + [m])[..|ms|] == ms;
  }

  /** Nothing to skip in front. */
  predicate Trimmed(input: string) {
    input == "" || !IsSpace(input[0])
  }

  /** What a literal or argument node leaves of the input after its word. */
  function Remaining(input: string): string {
    var words := Words(input);
    if |words| > 1 && |words[0]| <= |input| then TrimStart(input[|words[0]|..]) else ""
  }

  /** Hanging one more node below a chain that is already in the graph. */
  lemma HungSnoc(nodes: seq<Node>, chain: seq<Node>, node: Node)
    requires nodes != [] && node.children == []
    ensures var h, parent := Hung(nodes, chain), if chain == [] then 0 else |nodes| + |chain| - 1;
            Hung(nodes, chain + [node]) ==
            (h + [node])[parent := h[parent].(children := h[parent].children + [|h|])]
  {
    if chain == [] {
      assert [node][1..] == [];
      assert chain + [node] == [node];
    } else {
      LinkedSnoc(chain, |nodes|, node);
      var first := nodes[0 := nodes[0].(children := nodes[0].children + [|nodes|])];
      var l, last := Linked(chain, |nodes|), |chain| - 1;
      var hung := l[last].(children := [|nodes| + |chain|]);
      assert (first + l)[|nodes| + last] == l[last];
      assert l[last].children + [|nodes| + |chain|] == [|nodes| + |chain|];
      assert (first + l + [node])[|nodes| + last := hung] == first + (l[last := hung] + [node]);
    }
  }

  lemma {:induction false} LinkedSnoc(chain: seq<Node>, base: nat, node: Node)
    requires chain != [] && node.children == []
    ensures var l, last := Linked(chain, base), |chain| - 1;
            && l[last].children == []
            && Linked(chain + [node], base) == l[last := l[last].(children := [base + |chain|])] + [node]
  {
    assert (chain + [node])[1..] == chain[1..] + [node];
    if |chain| == 1 {
      assert chain[1..] + [node] == [node] && [node][1..] == [];
      assert Linked([node], base + 1) == [node];
    } else {
      LinkedSnoc(chain[1..], base + 1, node);
    }
  }

  /** The graph with the first `n` nodes of a chain hung below the root, and the node added last. */
  ghost function Partly(start: seq<Node>, form: Form, n: nat): (r: seq<Node>)
    requires start != [] && n <= |Chain(form)|
    ensures |r| == |start| + n
  {
    Hung(start, Chain(form)[..n])
  }

  function Tail(start: seq<Node>, n: nat): nat {
    if n == 0 then 0 else |start| + n - 1
  }

  function Appended(nodes: seq<Node>, parent: nat, node: Node): seq<Node>
    requires parent < |nodes|
  {
    (nodes + [node])[parent := nodes[parent].(children := nodes[parent].children + [|nodes|])]
  }

  lemma PartlyAll(start: seq<Node>, form: Form)
    requires start != []
    ensures Partly(start, form, |Chain(form)|) == Hung(start, Chain(form))
  {
    assert Chain(form)[..|Chain(form)|] == Chain(form);
  }

  lemma PartlyStep(start: seq<Node>, form: Form, n: nat, node: Node)
    requires start != [] && n < |Chain(form)| && Tail(start, n) < |start| + n
    requires if n < |form.words| then node == LiteralNode(form.words[n], n == |form.words| - 1 && RunsBare(form))
             else node == ArgumentNode(form.args[n - |form.words|].name, n == |Chain(form)| - 1)
    ensures Partly(start, form, n + 1) == Appended(Partly(start, form, n), Tail(start, n), node)
  {
    if n < |form.words| {
      LiteralAt(form.words, RunsBare(form), n);
    } else {
      ArgumentAt(form.args, n - |form.words|);
    }
    assert Chain(form)[..n + 1] == Chain(form)[..n] + [node];
    HungSnoc(start, Chain(form)[..n], node);
  }

  class CommandGraph {
    var nodes: seq<Node>
    ghost var registry: Registry

    ghost predicate Compiled()
      reads this
    {
      nodes == GraphOf(registry)
    }

    constructor ()
      ensures Compiled() && registry == Nothing
    {
      nodes, registry := [ROOT], Nothing;
    }

    /** Adds a node and links it to its parent. */
    method Append(parent: nat, node: Node) returns (idx: nat)
      requires parent < |nodes|
      modifies this`nodes
      ensures idx == |old(nodes)| && nodes == Appended(old(nodes), parent, node)
    {
      idx := |nodes|;
      nodes := nodes + [node];
      nodes := nodes[parent := nodes[parent].(children := nodes[parent].children + [idx])];
    }

    /** Appends the command's chain node by node under a running parent. */
    method Push(command: Command)
      requires Compiled()
      modifies this
      ensures Compiled() && registry == Pushed(old(registry), FormOf(command))
    {
      var parts := Words(command.name);
      ghost var start, form := nodes, FormOf(command);
      var current := 0;
      for idx := 0 to |parts|
        invariant nodes == Partly(start, form, idx) && current == Tail(start, idx) && registry == old(registry)
      {
        var isLast := idx == |parts| - 1;
        var node := LiteralNode(parts[idx], isLast && (command.args == [] || !command.args[0].required));
        PartlyStep(start, form, idx, node);
        current := Append(current, node);
      }
      PushArguments(command, current, start);
      registry := Pushed(registry, form);
    }

    method PushArguments(command: Command, parent: nat, ghost start: seq<Node>)
      requires start != [] && nodes == Partly(start, FormOf(command), |FormOf(command).words|)
      requires parent == Tail(start, |FormOf(command).words|)
      modifies this`nodes
      ensures nodes == Hung(start, Chain(FormOf(command)))
    {
      hide Partly, Appended, Chain, Hung, Words;
      ghost var form, n := FormOf(command), |FormOf(command).words|;
      var prev := parent;
      for idx := 0 to |command.args|
        invariant nodes == Partly(start, form, n + idx) && prev == Tail(start, n + idx)
      {
        var isLast := idx == |command.args| - 1;
        var argNode := ArgumentNode(command.args[idx].name, isLast);
        PartlyStep(start, form, n + idx, argNode);
        prev := Append(prev, argNode);
      }
      PartlyAll(start, form);
    }

    method FindCommand(input: string) returns (matches: seq<Match>)
      requires Compiled()
      ensures AsReports(matches) == Reports(nodes, 0, Words(input))
    {
      GraphIsForward(registry);
      WordsOfTrimmed(input);
      matches := FindCommandRecursive(0, Trim(input), []);
    }

    /** Reports node `idx` and what lies below it for the remaining, trimmed input. */
    method FindCommandRecursive(idx: nat, input: string, matches: seq<Match>) returns (found: seq<Match>)
      requires Forward(nodes) && idx < |nodes| && Trimmed(input)
      ensures AsReports(found) == AsReports(matches) + Reports(nodes, idx, Words(input))
      decreases |nodes| - idx, 2
    {
      var node, words := nodes[idx], Words(input);
      found := matches;
      if input == "" && node.executable {
        found := AddMatch(found, Match(idx, input));
        return;
      }
      if input == "" {
        return;
      }
      found := MatchNode(idx, input, words, Remaining(input), found);
    }

    /** The case analysis of the search on a node that has a word to consume. */
    method MatchNode(idx: nat, input: string, words: seq<string>, remaining: string, matches: seq<Match>)
      returns (found: seq<Match>)
      requires Forward(nodes) && idx < |nodes| && words == Words(input) && words != []
      requires Trimmed(input) && Trimmed(remaining) && Words(remaining) == words[1..]
      requires remaining == "" <==> |words| == 1
      ensures AsReports(found) == AsReports(matches) + Reports(nodes, idx, words)
      decreases |nodes| - idx, 1
    {
      hide Words, AsReports, ReportsAll, Forward;
      var node := nodes[idx];
      found := matches;
      match node.kind
      case Root =>
        found := FindInChildren(idx, input, found);
      case Literal =>
        if node.name == Some(words[0]) {
          if remaining == "" && node.executable {
            found := AddMatch(found, Match(idx, remaining));
          }
          found := FindInChildren(idx, remaining, found);
        }
      case Argument =>
        found := AddMatch(found, Match(idx, remaining));
        found := FindInChildren(idx, remaining, found);
    }

    method AddMatch(matches: seq<Match>, m: Match) returns (found: seq<Match>)
      ensures AsReports(found) == AsReports(matches) + [Report(m.node, Words(m.remaining))]
    {
      AsReportsSnoc(matches, m);
      found := matches + [m];
    }

    method FindInChildren(idx: nat, input: string, matches: seq<Match>) returns (found: seq<Match>)
      requires Forward(nodes) && idx < |nodes| && Trimmed(input)
      ensures AsReports(found) == AsReports(matches) + ReportsAll(nodes, idx, nodes[idx].children, Words(input))
      decreases |nodes| - idx, 0
    {
      var children := nodes[idx].children;
      ghost var pre, ws := AsReports(matches), Words(input);
      found := matches;
      hide AsReports, Words, Reports, ReportsAll;
      for k := 0 to |children|
        invariant AsReports(found) == pre + ReportsAll(nodes, idx, children[..k], ws)
      {
        AllStep(nodes, idx, children, k, ws, pre);
        found := FindCommandRecursive(children[k], input, found);
      }
      assert children[..|children|] == children;
    }

    /** Collects the literal names from node `idx` up to the root; the first node that lists `idx` is its parent. */
    method CollectCommandParts(idx: nat, parts: seq<string>) returns (more: seq<string>)
      requires Compiled() && idx < |nodes|
      ensures more == parts + PartsUp(nodes, idx)
      decreases idx
    {
      hide GraphOf, PartsUp;
      var node := nodes[idx];
      more := parts;
      if node.name.Some? && node.kind == Literal {
        more := more + [node.name.value];
      }
      for i := 0 to |nodes|
        invariant more == parts + OwnPart(node)
        invariant forall p :: 0 <= p < i ==> idx !in nodes[p].children
      {
        if idx in nodes[i].children {
          Climb(registry, nodes, i, idx);
          more := CollectCommandParts(i, more);
          return;
        }
      }
      PartsOfOrphan(nodes, idx);
    }

    method GetCommandName(idx: nat) returns (name: string)
      requires Compiled() && idx < |nodes|
      ensures name == Join(Reversed(PartsUp(nodes, idx)))
    {
      var parts := CollectCommandParts(idx, []);
      assert [] + PartsUp(nodes, idx) == PartsUp(nodes, idx);
      name := Join(Reversed(parts));
    }

    /** The space-joined words of the first registered command that accepts the input. */
    method FindCommandByInput(input: string) returns (name: Option<string>)
      requires Compiled()
      ensures name == NameOf(FirstAccepting(registry, Words(input)))
    {
      FindsFirstAccepting(registry, Words(input));
      GraphIsForward(registry);
      var matches := FindCommand(input);
      ReportsAreSearch(nodes, 0, Words(input));
      if matches == [] {
        return None;
      }
      AsReportsFirst(matches);
      FoundInRange(nodes, 0, Words(input), 0);
      assert FoundName(nodes, Words(input)) == Some(Join(Reversed(PartsUp(nodes, matches[0].node))));
      var n := GetCommandName(matches[0].node);
      name := Some(n);
    }
  }

  /** The links of the graph form a tree: a node has at most one parent, which comes before it. */
  lemma GraphHasParents(reg: Registry, idx: nat)
    requires idx < Total(reg)
    ensures forall p: nat {:trigger IsParent(GraphOf(reg), p, idx)} ::
              IsParent(GraphOf(reg), p, idx) ==> p < idx && OnlyParent(GraphOf(reg), p, idx)
  {
    hide GraphOf;
    GraphIsForward(reg);
    if idx > 0 {
      var sub, k := Locate(reg, idx);
      ParentInGraph(sub, reg, k);
    }
  }

  lemma {:induction false} Climb(reg: Registry, nodes: seq<Node>, p: nat, idx: nat)
    requires nodes == GraphOf(reg) && idx < |nodes| && p < |nodes| && idx in nodes[p].children
    ensures p < idx && PartsUp(nodes, idx) == OwnPart(nodes[idx]) + PartsUp(nodes, p)
  {
    hide GraphOf, PartsUp;
    GraphHasParents(reg, idx);
    assert IsParent(GraphOf(reg), p, idx);
    PartsStep(nodes, p, idx);
  }

  lemma PartsOfOrphan(nodes: seq<Node>, idx: nat)
    requires idx < |nodes| && forall p :: 0 <= p < |nodes| ==> idx !in nodes[p].children
    ensures PartsUp(nodes, idx) == OwnPart(nodes[idx])
  {
  }

  lemma AllStep(nodes: seq<Node>, parent: nat, cs: seq<nat>, k: nat, ws: seq<string>, pre: seq<Report>)
    requires k < |cs| && parent < cs[k] < |nodes|
    ensures pre + ReportsAll(nodes, parent, cs[..k + 1], ws) ==
            pre + ReportsAll(nodes, parent, cs[..k], ws) + Reports(nodes, cs[k], ws)
  {
    assert cs[..k + 1][..k] == cs[..k];
  }

  lemma {:induction false} AsReportsFirst(ms: seq<Match>)
    requires ms != []
    ensures AsReports(ms)[0].node == ms[0].node
  {
    if |ms| > 1 {
      AsReportsFirst(ms[..|ms| - 1]);
    }
  }

  /** The search reports nodes of the graph only. */
  lemma {:induction false} FoundInRange(nodes: seq<Node>, idx: nat, ws: seq<string>, i: nat)
    requires idx < |nodes| && i < |Search(nodes, idx, ws)|
    ensures Search(nodes, idx, ws)[i] < |nodes|
    decreases |nodes| - idx, 1, 0
  {
    var node := nodes[idx];
    if ws != [] {
      match node.kind
      case Root => AllInRange(nodes, idx, node.children, ws, i);
      case Literal =>
        var own := if |ws| == 1 && node.executable then [idx] else [];
        if i >= |own| {
          AllInRange(nodes, idx, node.children, ws[1..], i - |own|);
        }
      case Argument =>
        if i > 0 {
          AllInRange(nodes, idx, node.children, ws[1..], i - 1);
        }
    }
  }

  lemma {:induction false} AllInRange(nodes: seq<Node>, parent: nat, cs: seq<nat>, ws: seq<string>, i: nat)
    requires parent < |nodes| && i < |SearchAll(nodes, parent, cs, ws)|
    ensures SearchAll(nodes, parent, cs, ws)[i] < |nodes|
    decreases |nodes| - parent, 0, |cs|
  {
    var c, front := cs[|cs| - 1], SearchAll(nodes, parent, cs[..|cs| - 1], ws);
    if i < |front| {
      AllInRange(nodes, parent, cs[..|cs| - 1], ws, i);
    } else {
      FoundInRange(nodes, c, ws, i - |front|);
    }
  }

  // ---------------------------------------------------------------------------------------------
  // The table of commands
  // ---------------------------------------------------------------------------------------------

  function RegistryOf(cmds: seq<Command>): Registry {
    if cmds == [] then Nothing else Pushed(RegistryOf(cmds[..|cmds| - 1]), FormOf(cmds[|cmds| - 1]))
  }

  /** The table by name; a later command replaces an earlier one of the same name. */
  function Table(cmds: seq<Command>): map<string, Command> {
    if cmds == [] then map[] else Table(cmds[..|cmds| - 1])[cmds[|cmds| - 1].name := cmds[|cmds| - 1]]
  }

  class Commands {
    var table: map<string, Command>
    const graph: CommandGraph
    ghost var registered: seq<Command>

    ghost predicate Consistent()
      reads this, graph
    {
      table == Table(registered) && graph.registry == RegistryOf(registered) && graph.Compiled()
    }

    constructor ()
      ensures Consistent() && registered == [] && fresh(graph)
    {
      table, registered := map[], [];
      graph := new CommandGraph();
    }

    method RegisterCommand(command: Command)
      requires Consistent()
      modifies this, graph
      ensures Consistent() && registered == old(registered) + [command]
    {
      table := table[command.name := command];
      graph.Push(command);
      registered := registered + [command];
      assert registered[..|registered| - 1] == old(registered);
    }

    method FindCommand(input: string) returns (command: Option<Command>)
      requires Consistent()
      ensures command == Lookup(registered, input)
    {
      var name := graph.FindCommandByInput(input);
      if name.Some? && name.value in table {
        command := Some(table[name.value]);
      } else {
        command := None;
      }
    }
  }

  function NameOf(form: Option<Form>): Option<string> {
    if form.Some? then Some(Join(form.value.words)) else None
  }

  /** Search in the graph, then lookup by the recovered name. */
  function Lookup(cmds: seq<Command>, input: string): Option<Command> {
    var name := NameOf(FirstAccepting(RegistryOf(cmds), Words(input)));
    if name.Some? && name.value in Table(cmds) then Some(Table(cmds)[name.value]) else None
  }

  /** The index of the first registered command that accepts the words, or the number of commands. */
  function FirstIndex(cmds: seq<Command>, ws: seq<string>): (i: nat)
    ensures i <= |cmds|
    ensures i < |cmds| ==> Accepts(FormOf(cmds[i]), ws)
    ensures forall j :: 0 <= j < i ==> !Accepts(FormOf(cmds[j]), ws)
  {
    if cmds == [] then 0
    else
      var i := FirstIndex(cmds[..|cmds| - 1], ws);
      if i < |cmds| - 1 then i else if Accepts(FormOf(cmds[|cmds| - 1]), ws) then |cmds| - 1 else |cmds|
  }

  lemma {:induction false} FirstAcceptingIs(cmds: seq<Command>, ws: seq<string>)
    ensures var i := FirstIndex(cmds, ws);
            FirstAccepting(RegistryOf(cmds), ws) == if i < |cmds| then Some(FormOf(cmds[i])) else None
  {
    if cmds != [] {
      FirstAcceptingIs(cmds[..|cmds| - 1], ws);
    }
  }

  /** Command `j` is the last one registered under the name. */
  ghost predicate LastNamed(cmds: seq<Command>, name: string, j: nat) {
    j < |cmds| && cmds[j].name == name && forall k :: j < k < |cmds| ==> cmds[k].name != name
  }

  /** The table holds, for each registered name, the last command registered under it. */
  lemma {:induction false} TableHoldsLast(cmds: seq<Command>, name: string)
    ensures name !in Table(cmds) ==> forall j :: 0 <= j < |cmds| ==> cmds[j].name != name
    ensures name in Table(cmds) ==> exists j: nat :: LastNamed(cmds, name, j) && cmds[j] == Table(cmds)[name]
  {
    if cmds != [] {
      var pre, last := cmds[..|cmds| - 1], cmds[|cmds| - 1];
      TableHoldsLast(pre, name);
      if last.name == name {
        assert LastNamed(cmds, name, |cmds| - 1);
      } else if name in Table(pre) {
        var j: nat :| LastNamed(pre, name, j) && pre[j] == Table(pre)[name];
        assert LastNamed(cmds, name, j) && cmds[j] == pre[j];
      }
    }
  }

  /** A name written with single spaces and nothing around it. */
  predicate Canonical(name: string) {
    name == Join(Words(name))
  }

  ghost predicate DistinctNames(cmds: seq<Command>) {
    forall i, j :: 0 <= i < j < |cmds| ==> cmds[i].name != cmds[j].name
  }

  /** LOOKUP, with its exact condition.  The server finds a command for the input exactly when some command
      accepts it and the canonical form of the first one's name is itself registered. */
  lemma {:induction false} LookupSucceeds(cmds: seq<Command>, input: string)
    ensures var i := FirstIndex(cmds, Words(input));
            Lookup(cmds, input).Some? <==>
            i < |cmds| && exists j :: 0 <= j < |cmds| && cmds[j].name == Join(Words(cmds[i].name))
  {
    FirstAcceptingIs(cmds, Words(input));
    var i := FirstIndex(cmds, Words(input));
    if i < |cmds| {
      TableHoldsLast(cmds, Join(Words(cmds[i].name)));
    }
  }

  lemma JoinedIsCanonical(ws: seq<string>)
    requires forall w :: w in ws ==> IsWord(w)
    ensures Canonical(Join(ws))
  {
    WordsOfJoin(ws);
  }

  lemma NameHasWords(name: string)
    ensures forall w :: w in Words(name) ==> IsWord(w)
  {
    forall w | w in Words(name)
      ensures IsWord(w)
    {
      var i :| 0 <= i < |Words(name)| && Words(name)[i] == w;
      WordsAreWords(name, i);
    }
  }

  /** What the lookup can return: some command accepts the input, and the result is the last command registered under
      the canonical spelling of the first one's name. */
  lemma LookupReturns(cmds: seq<Command>, input: string, cmd: Command)
    ensures var i := FirstIndex(cmds, Words(input));
            Lookup(cmds, input) == Some(cmd) <==>
            i < |cmds| && exists j: nat :: LastNamed(cmds, Join(Words(cmds[i].name)), j) && cmds[j] == cmd
  {
    FirstAcceptingIs(cmds, Words(input));
    var i := FirstIndex(cmds, Words(input));
    if i < |cmds| {
      var name := Join(Words(cmds[i].name));
      TableHoldsLast(cmds, name);
      if j: nat :| LastNamed(cmds, name, j) && cmds[j] == cmd {
        LastIsUnique(cmds, name, j);
      }
    }
  }

  lemma LastIsUnique(cmds: seq<Command>, name: string, j: nat)
    requires LastNamed(cmds, name, j)
    ensures forall k: nat :: LastNamed(cmds, name, k) ==> k == j
  {
  }

  /** Whatever the registry, only a command whose name is in canonical spelling is ever found. */
  lemma NonCanonicalIsLost(cmds: seq<Command>, input: string)
    ensures Lookup(cmds, input).Some? ==> Canonical(Lookup(cmds, input).value.name)
  {
    var i := FirstIndex(cmds, Words(input));
    if Lookup(cmds, input).Some? {
      LookupReturns(cmds, input, Lookup(cmds, input).value);
      NameHasWords(cmds[i].name);
      JoinedIsCanonical(Words(cmds[i].name));
    }
  }

  /** The lookup returns the first registered command that accepts the input exactly when that command's name is in
      canonical spelling and no later command of the same name differs from it. */
  lemma LookupFindsFirst(cmds: seq<Command>, input: string)
    ensures var i := FirstIndex(cmds, Words(input));
            && (i == |cmds| ==> Lookup(cmds, input) == None)
            && (i < |cmds| ==>
                  (Lookup(cmds, input) == Some(cmds[i]) <==>
                   Canonical(cmds[i].name) &&
                   exists j: nat :: LastNamed(cmds, cmds[i].name, j) && cmds[j] == cmds[i]))
  {
    var i := FirstIndex(cmds, Words(input));
    LookupSucceeds(cmds, input);
    if i < |cmds| {
      NonCanonicalIsLost(cmds, input);
      LookupReturns(cmds, input, cmds[i]);
    }
  }

  /** With canonical, distinct names it always does. */
  lemma LookupOfDistinct(cmds: seq<Command>, input: string)
    requires DistinctNames(cmds) && forall c :: c in cmds ==> Canonical(c.name)
    ensures var i := FirstIndex(cmds, Words(input));
            Lookup(cmds, input) == if i < |cmds| then Some(cmds[i]) else None
  {
    var i := FirstIndex(cmds, Words(input));
    LookupFindsFirst(cmds, input);
    if i < |cmds| {
      assert cmds[i] in cmds;
      assert LastNamed(cmds, cmds[i].name, i);
    }
  }
}
