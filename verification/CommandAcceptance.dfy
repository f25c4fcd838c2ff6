/** What acceptance and canonical names mean for a command as it is registered, in terms of its text alone. */
module CommandAcceptance {
  import opened Options
  import opened CommandWords
  import opened CommandGraphs
  import opened CommandSearch
  import opened CommandInfrastructure

  /** A registered command on its own: the compiled graph finds it for an input exactly when the input's words agree
      with the name as far as both go and, there being at least one word, either
      there are more words than the name has and the command takes arguments; or
      they are just the name and the command takes one argument, or none, or an optional one first; or
      only the last word of the name is missing and the command takes no argument or an optional one first. */
  lemma FoundExactly(cmd: Command, input: string)
    ensures var ws, name, args := Words(input), Words(cmd.name), cmd.args;
            FoundName(GraphOf(RegistryOf([cmd])), ws) == Some(Join(name)) <==>
            && |ws| > 0
            && (forall k :: 0 <= k < |ws| && k < |name| ==> ws[k] == name[k])
            && (|| (|ws| > |name| && |args| > 0)
                || (|ws| == |name| && (|args| <= 1 || !args[0].required))
                || (|ws| + 1 == |name| && (|args| == 0 || !args[0].required)))
  {
    assert [cmd][..0] == [];
    assert RegistryOf([cmd]) == Pushed(Nothing, FormOf(cmd));
    FindsFirstAccepting(RegistryOf([cmd]), Words(input));
    hide Words, FoundName, GraphOf, Join;
  }

  /** The same for a command among others: it is the first the graph could mean exactly when the words fit it and fit
      none before it. */
  lemma FirstFittingIsFound(cmds: seq<Command>, i: nat, input: string)
    requires i < |cmds|
    requires forall j :: 0 <= j < i ==> FoundName(GraphOf(RegistryOf([cmds[j]])), Words(input)) == None
    requires FoundName(GraphOf(RegistryOf([cmds[i]])), Words(input)) == Some(Join(Words(cmds[i].name)))
    ensures FoundName(GraphOf(RegistryOf(cmds)), Words(input)) == Some(Join(Words(cmds[i].name)))
  {
    hide Words, FoundName, GraphOf, Join, RegistryOf, FirstAccepting, Accepts;
    forall j | 0 <= j <= i
      ensures FoundName(GraphOf(RegistryOf([cmds[j]])), Words(input)).Some? <==> Accepts(FormOf(cmds[j]), Words(input))
    {
      FoundAlone(cmds[j], Words(input));
    }
    FirstAcceptingIs(cmds, Words(input));
    FindsFirstAccepting(RegistryOf(cmds), Words(input));
    assert FirstIndex(cmds, Words(input)) == i;
  }

  lemma FoundAlone(cmd: Command, ws: seq<string>)
    ensures FoundName(GraphOf(RegistryOf([cmd])), ws).Some? <==> Accepts(FormOf(cmd), ws)
  {
    assert [cmd][..0] == [];
    assert RegistryOf([cmd]) == Pushed(Nothing, FormOf(cmd));
    FindsFirstAccepting(RegistryOf([cmd]), ws);
    hide FoundName, GraphOf, Join, Accepts;
  }

  // ---------------------------------------------------------------------------------------------
  // Canonical names
  // ---------------------------------------------------------------------------------------------

  /** White space only as single space characters between other characters. */
  predicate SingleSpaced(s: string) {
    forall i :: 0 <= i < |s| && IsSpace(s[i]) ==> s[i] == ' ' && 0 < i < |s| - 1 && !IsSpace(s[i + 1])
  }

  /** A name is in canonical spelling, the only one under which the lookup can find it, exactly when its white space is
      single spaces between words. */
  lemma CanonicalExactly(name: string)
    ensures Canonical(name) <==> SingleSpaced(name)
  {
    if SingleSpaced(name) {
      SingleSpacedIsCanonical(name);
    } else if Canonical(name) {
      NameHasWords(name);
      JoinIsSingleSpaced(Words(name));
    }
  }

  lemma {:induction false} JoinIsSingleSpaced(ws: seq<string>)
    requires forall w :: w in ws ==> IsWord(w)
    ensures SingleSpaced(Join(ws))
    ensures ws != [] ==> Join(ws) != "" && !IsSpace(Join(ws)[0])
  {
    if ws != [] {
      assert ws[0] in ws;
      if |ws| > 1 {
        var rest := Join(ws[1..]);
        JoinIsSingleSpaced(ws[1..]);
        JoinTwo(ws[0], rest);
      }
    }
  }

  lemma JoinTwo(w: string, rest: string)
    requires IsWord(w) && SingleSpaced(rest) && rest != "" && !IsSpace(rest[0])
    ensures SingleSpaced(w + " " + rest)
  {
    var s := w + " " + rest;
    assert forall i :: 0 <= i < |w| ==> !IsSpace(s[i]);
    forall i | 0 <= i < |s| && IsSpace(s[i])
      ensures s[i] == ' ' && 0 < i < |s| - 1 && !IsSpace(s[i + 1])
    {
      if i > |w| {
        var j := i - |w| - 1;
        assert s[i] == rest[j];
        assert j + 1 < |rest| ==> s[i + 1] == rest[j + 1];
      } else {
        assert s[i + 1] == rest[0];
      }
    }
  }

  lemma {:induction false} SingleSpacedIsCanonical(s: string)
    requires SingleSpaced(s)
    ensures Canonical(s)
    decreases |s|
  {
    if s != "" {
      assert !IsSpace(s[0]);
      var w := FirstWord(s);
      FirstWordStops(s);
      if |w| < |s| {
        RestIsSingleSpaced(s, |w|);
        SingleSpacedIsCanonical(s[|w| + 1..]);
      }
      assert IsWord(w) && w == s[..|w|];
      hide SingleSpaced, FirstWord, IsSpace, IsWord, Words, Canonical, Join;
      if |w| < |s| {
        WordBeforeRest(w, s[|w| + 1..]);
      } else {
        assert s[..|s|] == s;
        OneWord(w);
      }
    }
  }

  lemma OneWord(w: string)
    requires IsWord(w)
    ensures Canonical(w)
  {
    assert w + "" == w;
    WordsCons(w, "");
  }

  lemma WordBeforeRest(w: string, rest: string)
    requires IsWord(w) && Canonical(rest) && rest != ""
    ensures Canonical(w + (" " + rest))
  {
    WordsCons(w, " " + rest);
    assert Words(rest) != [];
    hide Words, IsWord;
    SkipSpace(rest);
    JoinCons(w, Words(rest));
  }

  lemma RestIsSingleSpaced(s: string, n: nat)
    requires SingleSpaced(s) && n < |s| && IsSpace(s[n])
    ensures n + 1 < |s|
    ensures var rest := s[n + 1..];
            SingleSpaced(rest) && !IsSpace(rest[0]) && s == s[..n] + (" " + rest)
  {
    var rest := s[n + 1..];
    assert forall i :: 0 <= i < |rest| ==> rest[i] == s[n + 1 + i];
  }

  lemma JoinCons(w: string, ws: seq<string>)
    requires ws != []
    ensures Join([w] + ws) == w + (" " + Join(ws))
  {
    assert ([w] + ws)[1..] == ws;
  }

  /** White space among the first 128 characters: tabulator to carriage return, and the space. */
  lemma AsciiSpaces(c: char)
    requires c < '\U{0080}'
    ensures IsSpace(c) <==> c in {'\t', '\n', '\U{000B}', '\U{000C}', '\r', ' '}
  {
  }
}
