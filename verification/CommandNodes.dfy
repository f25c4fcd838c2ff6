/** The nodes of the command graph and the flag byte the client sees. */
module CommandNodes {
  import opened Options

  datatype NodeType = Root | Literal | Argument

  datatype Node = Node(kind: NodeType, executable: bool, suggestions: bool, children: seq<nat>, name: Option<string>)

  const EXECUTABLE_FLAG: bv8 := 0x04
  const SUGGESTIONS_FLAG: bv8 := 0x10

  function TypeFlag(t: NodeType): bv8 {
    match t
    case Root => 0x00
    case Literal => 0x01
    case Argument => 0x02
  }

  /** The encoded flags: type in the low two bits, marks above. */
  function Flags(n: Node): bv8 {
    TypeFlag(n.kind) | (if n.executable then EXECUTABLE_FLAG else 0) | (if n.suggestions then SUGGESTIONS_FLAG else 0)
  }

  /** `node_type` of a flag byte; an invalid type reads as root. */
  function DecodeType(flags: bv8): NodeType {
    match flags & 0x03
    case 1 => Literal
    case 2 => Argument
    case _ => Root
  }

  predicate DecodeExecutable(flags: bv8) {
    flags & EXECUTABLE_FLAG != 0
  }

  /** The flag byte determines type and marks, independently of each other. */
  lemma FlagsDecode(n: Node)
    ensures DecodeType(Flags(n)) == n.kind
    ensures DecodeExecutable(Flags(n)) == n.executable
    ensures (Flags(n) & 0x10 != 0) == n.suggestions && (Flags(n) & 0x04 != 0) == n.executable
    ensures Flags(n) & 0x03 == match n.kind case Root => 0 case Literal => 1 case Argument => 2
    ensures Flags(n) & 0xE8 == 0
  {
  }

  const ROOT: Node := Node(Root, false, false, [], None)

  function LiteralNode(part: string, executable: bool): Node {
    Node(Literal, executable, false, [], Some(part))
  }

  function ArgumentNode(name: string, executable: bool): Node {
    Node(Argument, executable, true, [], Some(name))
  }
}
