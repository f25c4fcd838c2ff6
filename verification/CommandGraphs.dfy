/** The command graph: commands compiled to chains of nodes under a root, and the search through them. */
module CommandGraphs {
  import opened Options
  import opened CommandWords
  import opened CommandNodes

  datatype Arg = Arg(name: string, required: bool)

  datatype Command = Command(name: string, args: seq<Arg>)

  /** A command as the graph sees it: the words of its name and its arguments. */
  datatype Form = Form(words: seq<string>, args: seq<Arg>)

  function FormOf(cmd: Command): Form {
    Form(Words(cmd.name), cmd.args)
  }

  /** The command runs without any argument. */
  predicate RunsBare(cmd: Form) {
    cmd.args == [] || !cmd.args[0].required
  }

  /** A literal per word, the last one executable if `bare`. */
  function Literals(ws: seq<string>, bare: bool): (c: seq<Node>)
    ensures |c| == |ws|
  {
    if ws == [] then [] else [LiteralNode(ws[0], |ws| == 1 && bare)] + Literals(ws[1..], bare)
  }

  /** A node per argument, the last one executable. */
  function Arguments(args: seq<Arg>): (c: seq<Node>)
    ensures |c| == |args|
  {
    if args == [] then [] else [ArgumentNode(args[0].name, |args| == 1)] + Arguments(args[1..])
  }

  function Size(cmd: Form): nat {
    |cmd.words| + |cmd.args|
  }

  /** The nodes of a command before they are linked. */
  function Chain(cmd: Form): (c: seq<Node>)
    ensures |c| == Size(cmd)
  {
    Literals(cmd.words, RunsBare(cmd)) + Arguments(cmd.args)
  }

  lemma {:induction false} LiteralAt(ws: seq<string>, bare: bool, k: nat)
    requires k < |ws|
    ensures Literals(ws, bare)[k] == LiteralNode(ws[k], k == |ws| - 1 && bare)
  {
    if k > 0 {
      LiteralAt(ws[1..], bare, k - 1);
    }
  }

  lemma {:induction false} ArgumentAt(args: seq<Arg>, k: nat)
    requires k < |args|
    ensures Arguments(args)[k] == ArgumentNode(args[k].name, k == |args| - 1)
  {
    if k > 0 {
      ArgumentAt(args[1..], k - 1);
    }
  }

  /** The chain's nodes linked one below the other, the first one being node `base` of the graph. */
  function Linked(chain: seq<Node>, base: nat): (r: seq<Node>)
    ensures |r| == |chain|
  {
    if chain == [] then []
    else [chain[0].(children := if |chain| > 1 then [base + 1] else [])] + Linked(chain[1..], base + 1)
  }

  function LinkedNode(chain: seq<Node>, k: nat, base: nat): Node
    requires k < |chain|
  {
    chain[k].(children := if k + 1 < |chain| then [base + k + 1] else [])
  }

  lemma {:induction false} LinkedAt(chain: seq<Node>, base: nat, k: nat)
    requires k < |chain|
    ensures Linked(chain, base)[k] == LinkedNode(chain, k, base)
  {
    if k > 0 {
      LinkedAt(chain[1..], base + 1, k - 1);
    }
  }

  /** `chain` hung below the root: its first node under the root, every other one under its predecessor. */
  function Hung(nodes: seq<Node>, chain: seq<Node>): (r: seq<Node>)
    requires nodes != []
    ensures |r| == |nodes| + |chain|
  {
    if chain == [] then nodes
    else nodes[0 := nodes[0].(children := nodes[0].children + [|nodes|])] + Linked(chain, |nodes|)
  }

  /** The commands pushed so far, oldest innermost. */
  datatype Registry = Nothing | Pushed(before: Registry, cmd: Form)

  /** The number of nodes of a graph. */
  function Total(reg: Registry): (n: nat)
    ensures n > 0
  {
    if reg.Nothing? then 1 else Total(reg.before) + Size(reg.cmd)
  }

  function GraphOf(reg: Registry): (r: seq<Node>)
    ensures |r| == Total(reg)
  {
    match reg
    case Nothing => [ROOT]
    case Pushed(before, cmd) => Hung(GraphOf(before), Chain(cmd))
  }

  /** The earliest pushed command that accepts the words. */
  function FirstAccepting(reg: Registry, ws: seq<string>): Option<Form> {
    match reg
    case Nothing => None
    case Pushed(before, cmd) =>
      var first := FirstAccepting(before, ws);
      if first.Some? then first else if Accepts(cmd, ws) then Some(cmd) else None
  }

  // ---------------------------------------------------------------------------------------------
  // The search on one chain, and what it accepts
  // ---------------------------------------------------------------------------------------------

  /** The nodes of a chain the search reports from node `k` on, in the order it reports them. */
  function Visit(chain: seq<Node>, k: nat, ws: seq<string>): seq<nat>
    requires k < |chain|
    decreases |chain| - k
  {
    var node := chain[k];
    if ws == [] then (if node.executable then [k] else [])
    else match node.kind
      case Root => []
      case Literal =>
        if node.name != Some(ws[0]) then []
        else (if |ws| == 1 && node.executable then [k] else []) + VisitNext(chain, k, ws[1..])
      case Argument => [k] + VisitNext(chain, k, ws[1..])
  }

  function VisitNext(chain: seq<Node>, k: nat, ws: seq<string>): seq<nat>
    requires k < |chain|
    decreases |chain| - k, 0
  {
    if k + 1 < |chain| then Visit(chain, k + 1, ws) else []
  }

  /** What the search accepts, stated on the command itself: the words agree with the name as far as both
      reach, and either a word is left for the first argument, or the words run out on the end of the name or
      one word before it and the command runs bare, or they run out on the end of the name and the command
      has a single argument. */
  predicate Accepts(cmd: Form, ws: seq<string>) {
    var name := cmd.words;
    && ws != []
    && (forall k :: 0 <= k < |name| && k < |ws| ==> ws[k] == name[k])
    && (|| (|ws| > |name| && cmd.args != [])
        || (|ws| == |name| && (RunsBare(cmd) || |cmd.args| == 1))
        || (|ws| + 1 == |name| && RunsBare(cmd)))
  }

  /** Words agree with the literals from `k` on. */
  predicate Agree(cmd: Form, k: nat, ws: seq<string>) {
    var name := cmd.words;
    forall i :: k <= i < |name| && i - k < |ws| ==> ws[i - k] == name[i]
  }

  /** Whether the search reports something from node `k` on, on the command itself. */
  predicate AcceptsFrom(cmd: Form, k: nat, ws: seq<string>) {
    var n := |cmd.words|;
    && Agree(cmd, k, ws)
    && (|| (k + |ws| > n && (cmd.args != [] && (k < n || ws != [] || k - n + 1 == |cmd.args|)))
        || (k + |ws| == n && ((k < n && RunsBare(cmd)) || |cmd.args| == 1))
        || (k + |ws| + 1 == n && RunsBare(cmd)))
  }

  lemma ChainNodes(cmd: Form, k: nat)
    requires k < |Chain(cmd)|
    ensures var n, node := |cmd.words|, Chain(cmd)[k];
            if k < n
            then node.kind == Literal && node.name == Some(cmd.words[k]) &&
                 node.executable == (k == n - 1 && RunsBare(cmd))
            else node.kind == Argument && node.executable == (k - n == |cmd.args| - 1)
  {
    var n := |cmd.words|;
    if k < n {
      LiteralAt(cmd.words, RunsBare(cmd), k);
    } else {
      ArgumentAt(cmd.args, k - n);
    }
  }

  lemma {:induction false} VisitAccepts(cmd: Form, k: nat, ws: seq<string>)
    requires k < |Chain(cmd)|
    ensures Visit(Chain(cmd), k, ws) != [] <==> AcceptsFrom(cmd, k, ws)
    decreases |Chain(cmd)| - k
  {
    var n := |cmd.words|;
    ChainNodes(cmd, k);
    if ws != [] && k + 1 < |Chain(cmd)| {
      VisitAccepts(cmd, k + 1, ws[1..]);
    }
    if ws != [] && k < n {
      assert Agree(cmd, k, ws) <==> ws[0] == cmd.words[k] && Agree(cmd, k + 1, ws[1..]) by {
        if ws[0] == cmd.words[k] && Agree(cmd, k + 1, ws[1..]) {
          forall i | k <= i < n && i - k < |ws|
            ensures ws[i - k] == cmd.words[i]
          {
            assert i > k ==> ws[1..][i - (k + 1)] == cmd.words[i];
          }
        }
        if Agree(cmd, k, ws) {
          assert ws[k - k] == cmd.words[k];
          forall i | k + 1 <= i < n && i - (k + 1) < |ws[1..]|
            ensures ws[1..][i - (k + 1)] == cmd.words[i]
          {
            assert ws[i - k] == cmd.words[i];
          }
        }
      }
    }
  }

  /** ACCEPTANCE.  On the chain of a command the search reports a node for non-empty input exactly when the
      command accepts the words. */
  lemma SearchAccepts(cmd: Form, ws: seq<string>)
    requires Chain(cmd) != [] && ws != []
    ensures Visit(Chain(cmd), 0, ws) != [] <==> Accepts(cmd, ws)
  {
    VisitAccepts(cmd, 0, ws);
    assert Agree(cmd, 0, ws) <==> forall k :: 0 <= k < |cmd.words| && k < |ws| ==> ws[k] == cmd.words[k] by {
      if Agree(cmd, 0, ws) {
        forall k | 0 <= k < |cmd.words| && k < |ws|
          ensures ws[k] == cmd.words[k]
        {
          assert ws[k - 0] == cmd.words[k];
        }
      }
    }
  }

  /** Every node the search reports lies at or after the last literal, so it still knows the whole name. */
  lemma {:induction false} ReportedKnowName(cmd: Form, k: nat, ws: seq<string>)
    requires k < |Chain(cmd)|
    ensures forall m :: m in Visit(Chain(cmd), k, ws) ==> |cmd.words| <= m + 1 <= |Chain(cmd)|
    decreases |Chain(cmd)| - k
  {
    ChainNodes(cmd, k);
    if ws != [] {
      var rest := VisitNext(Chain(cmd), k, ws[1..]);
      if k + 1 < |Chain(cmd)| {
        ReportedKnowName(cmd, k + 1, ws[1..]);
        assert rest == Visit(Chain(cmd), k + 1, ws[1..]);
      } else {
        assert rest == [];
      }
      assert forall m :: m in rest ==> |cmd.words| <= m + 1 <= |Chain(cmd)|;
      assert forall m :: m in Visit(Chain(cmd), k, ws) ==> m in rest || m == k;
    }
  }
}
