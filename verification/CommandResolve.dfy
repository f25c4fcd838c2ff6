/** Resolving a chat line: which command it runs, and which words reach the command as its arguments. */
module CommandResolve {
  import opened Options
  import opened CommandWords
  import opened CommandGraphs
  import opened CommandInfrastructure

  datatype Resolved = Resolved(command: Command, argument: string)

  /** The line without the command's name in front, if it begins with exactly that. */
  function Stripped(input: string, name: string): string {
    if name <= input then input[|name|..] else input
  }

  function ArgumentOf(command: Command, input: string): string {
    TrimStart(Stripped(input, command.name))
  }

  method Resolve(commands: Commands, input: string) returns (r: Option<Resolved>)
    requires commands.Consistent()
    ensures var found := Lookup(commands.registered, input);
            r == if found.Some? then Some(Resolved(found.value, ArgumentOf(found.value, input))) else None
  {
    var command := commands.FindCommand(input);
    if command.None? {
      return None;
    }
    var rest := if command.value.name <= input then input[|command.value.name|..] else input;
    r := Some(Resolved(command.value, TrimStart(rest)));
  }

  /** A text that begins with words joined by spaces has at least as many words. */
  lemma {:induction false} BeginsWithWords(ns: seq<string>, rest: string)
    requires forall w :: w in ns ==> IsWord(w)
    ensures |Words(Join(ns) + rest)| >= |ns|
  {
    if |ns| > 0 {
      var tail := if |ns| == 1 then rest else " " + (Join(ns[1..]) + rest);
      assert ns[0] in ns;
      assert Join(ns) + rest == ns[0] + tail;
      HeadWord(ns[0], tail);
      if |ns| > 1 {
        BeginsWithWords(ns[1..], rest);
        SkipSpace(Join(ns[1..]) + rest);
        WordsCons(ns[0], tail);
      }
    }
  }

  lemma HeadWord(w: string, rest: string)
    requires IsWord(w)
    ensures Words(w + rest) != [] && Words(w + rest)[0] == FirstWord(w + rest)
  {
    assert (w + rest)[0] == w[0];
    assert TrimStart(w + rest) == w + rest;
  }

  /** If moreover its first words are those, the others are the words of the rest. */
  lemma {:induction false} WordsAfter(ns: seq<string>, rest: string)
    requires forall w :: w in ns ==> IsWord(w)
    requires var ws := Words(Join(ns) + rest);
             |ws| >= |ns| && forall k :: 0 <= k < |ns| ==> ws[k] == ns[k]
    ensures Words(Join(ns) + rest) == ns + Words(rest)
  {
    hide Words, IsWord, FirstWord;
    if ns == [] {
      assert Join(ns) + rest == rest;
      assert ns + Words(rest) == Words(rest);
    } else {
      var tail := if |ns| == 1 then rest else " " + (Join(ns[1..]) + rest);
      assert ns[0] in ns;
      assert Join(ns) + rest == ns[0] + tail;
      FirstOff(ns[0], tail);
      if |ns| == 1 {
        assert ns == [ns[0]];
      } else {
        SkipSpace(Join(ns[1..]) + rest);
        WordsAfter(ns[1..], rest);
        assert ns == [ns[0]] + ns[1..];
      }
    }
  }

  lemma FirstOff(w: string, tail: string)
    requires IsWord(w) && Words(w + tail) != [] && Words(w + tail)[0] == w
    ensures Words(w + tail) == [w] + Words(tail)
  {
    HeadWord(w, tail);
    FirstWordStops(w + tail);
    assert (w + tail)[|w|..] == tail;
    WordsCons(w, tail);
  }

  lemma JoinOfNone()
    ensures Join([]) == ""
  {
  }

  /** ARGUMENTS, exactly.  A command that accepts the line receives the words behind its name when the line begins
      with the name as it is registered; otherwise it receives every word of the line, its own name included. */
  lemma ArgumentsArrive(command: Command, input: string)
    requires Canonical(command.name) && Accepts(FormOf(command), Words(input))
    ensures var ws, n := Words(input), |Words(command.name)|;
            && (command.name <= input ==> |ws| >= n && Words(ArgumentOf(command, input)) == ws[n..])
            && (!(command.name <= input) ==> n > 0 && Words(ArgumentOf(command, input)) == ws)
            && (|ws| >= n ==> (Words(ArgumentOf(command, input)) == ws[n..] <==> command.name <= input))
    ensures ArgumentOf(command, input) != "" ==> !IsSpace(ArgumentOf(command, input)[0])
  {
    hide Words, IsWord, TrimStart, Join;
    var name, ns, ws := command.name, Words(command.name), Words(input);
    NameHasWords(name);
    JoinOfNone();
    assert ns == [] ==> name == "" && name <= input;
    WordsOfTrimmedStart(Stripped(input, name));
    if name <= input {
      var rest := input[|name|..];
      assert input == name + rest;
      BeginsWithWords(ns, rest);
      WordsAfter(ns, rest);
      assert ws == ns + Words(rest);
    }
  }

  /** With distinct names in canonical spelling: a line is resolved to the first registered command that accepts it,
      and the command's arguments are the words behind its name if the line begins with the name. */
  lemma ResolvesFirst(cmds: seq<Command>, input: string)
    requires DistinctNames(cmds) && forall c :: c in cmds ==> Canonical(c.name)
    ensures var i := FirstIndex(cmds, Words(input));
            && Lookup(cmds, input) == (if i < |cmds| then Some(cmds[i]) else None)
            && (i < |cmds| && cmds[i].name <= input ==>
                  |Words(input)| >= |Words(cmds[i].name)| &&
                  Words(ArgumentOf(cmds[i], input)) == Words(input)[|Words(cmds[i].name)|..])
  {
    LookupOfDistinct(cmds, input);
    var i := FirstIndex(cmds, Words(input));
    hide Words, Canonical, ArgumentOf, Lookup, Accepts;
    if i < |cmds| {
      assert cmds[i] in cmds;
      ArgumentsArrive(cmds[i], input);
    }
  }
}
