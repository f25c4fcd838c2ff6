/** The cursor over a command's input, and the parser for positions that reads it to the end. */
module CommandInputs {
  import opened Options
  import opened CommandWords

  /** Where one character is one byte, so that counting either is the same. */
  predicate IsAscii(s: string) {
    forall i :: 0 <= i < |s| ==> s[i] < '\U{0080}'
  }

  /** What is left after the characters that are not `separator`. */
  function Until(s: string, separator: char): (w: string)
    ensures w <= s && separator !in w
    ensures |w| < |s| ==> s[|w|] == separator
  {
    if s == [] || s[0] == separator then [] else [s[0]] + Until(s[1..], separator)
  }

  lemma {:induction false} UntilIs(s: string, separator: char, n: nat)
    requires n <= |s| && separator !in s[..n] && (n < |s| ==> s[n] == separator)
    ensures Until(s, separator) == s[..n]
  {
    if n > 0 {
      assert s[0] in s[..n] && s[1..][..n - 1] == s[..n][1..];
      UntilIs(s[1..], separator, n - 1);
    }
  }

  lemma FirstWordEnds(s: string, n: nat)
    requires n <= |s| && IsWordPart(s[..n]) && (n < |s| ==> IsSpace(s[n]))
    ensures FirstWord(s) == s[..n]
  {
    assert s == s[..n] + s[n..];
    FirstWordIs(s[..n], s[n..]);
  }

  /** The first word of a text and the rest, stated on its words. */
  lemma SplitWord(s: string)
    ensures var t := TrimStart(s);
            var w := FirstWord(t);
            if Words(s) == [] then t == "" && w == ""
            else w == Words(s)[0] && w != "" && Words(t[|w|..]) == Words(s)[1..]
  {
  }

  class CommandInput {
    var input: string
    var cursor: nat

    predicate Valid()
      reads this
    {
      cursor <= |input| && IsAscii(input)
    }

    constructor (input: string)
      requires IsAscii(input)
      ensures Valid() && this.input == input && cursor == 0
    {
      this.input, cursor := input, 0;
    }

    function Remaining(): string
      requires cursor <= |input|
      reads this
    {
      input[cursor..]
    }

    /** Moves the cursor, unless that would take it past the end. */
    method MoveCursor(chars: nat)
      requires Valid()
      modifies this`cursor
      ensures Valid()
      ensures cursor == if old(cursor) + chars <= |input| then old(cursor) + chars else old(cursor)
    {
      if cursor + chars > |input| {
        return;
      }
      cursor := cursor + chars;
    }

    function Peek(): Option<char>
      reads this
    {
      if cursor < |input| then Some(input[cursor]) else None
    }

    method Read(chars: nat) returns (s: string)
      requires Valid()
      modifies this`cursor
      ensures Valid()
      ensures if chars <= |old(Remaining())|
              then s == old(Remaining())[..chars] && Remaining() == old(Remaining())[chars..]
              else s == "" && cursor == old(cursor)
    {
      s := if chars > |Remaining()| then "" else Remaining()[..chars];
      MoveCursor(chars);
    }

    /** Skips at most `maxSpaces` characters of whitespace; a single last space can be preserved. */
    method SkipWhitespace(maxSpaces: nat, preserveSingle: bool)
      requires Valid()
      modifies this`cursor
      ensures Valid()
      ensures preserveSingle && old(Remaining()) == " " ==> cursor == old(cursor)
      ensures !(preserveSingle && old(Remaining()) == " ") && maxSpaces >= |old(Remaining())| ==>
                Remaining() == TrimStart(old(Remaining()))
      ensures old(cursor) <= cursor <= old(cursor) + maxSpaces
      ensures forall i :: old(cursor) <= i < cursor ==> IsSpace(input[i])
    {
      if preserveSingle && |input| - cursor == 1 && Peek() == Some(' ') {
        return;
      }
      var i := 0;
      while i < maxSpaces && cursor < |input| && IsSpace(input[cursor])
        invariant Valid() && cursor == old(cursor) + i && i <= maxSpaces
        invariant forall k :: old(cursor) <= k < cursor ==> IsSpace(input[k])
        invariant TrimStart(Remaining()) == TrimStart(old(Remaining()))
        decreases |input| - cursor
      {
        assert Remaining()[1..] == input[cursor + 1..];
        var skipped := Read(1);
        i := i + 1;
      }
    }

    /** Reads the first word left; the cursor stops right behind it. */
    method ReadString() returns (result: string)
      requires Valid()
      modifies this`cursor
      ensures Valid()
      ensures var t := TrimStart(old(Remaining()));
              result == FirstWord(t) && Remaining() == t[|result|..]
      ensures cursor == AfterRead(input, old(cursor))
      ensures old(cursor) < |input| ==> cursor > old(cursor)
    {
      hide TrimStart, FirstWord, IsAscii;
      SkipWhitespace(|input|, false);
      ghost var t, start := Remaining(), cursor;
      result := "";
      while cursor < |input| && !IsSpace(input[cursor])
        invariant Valid() && start <= cursor && cursor - start == |result|
        invariant result == t[..|result|] && IsWordPart(result) && Remaining() == t[|result|..]
        decreases |input| - cursor
      {
        result := result + [input[cursor]];
        MoveCursor(1);
      }
      FirstWordEnds(t, |result|);
    }

    /** Reads up to a separator, which is consumed but not returned. */
    method ReadUntil(separator: char) returns (result: string)
      requires Valid()
      modifies this`cursor
      ensures Valid()
      ensures var t := TrimStart(old(Remaining()));
              && result == Until(t, separator)
              && Remaining() == if |result| < |t| then t[|result| + 1..] else ""
    {
      hide TrimStart, Until, IsAscii;
      SkipWhitespace(|input|, false);
      ghost var t := Remaining();
      result := "";
      assert t[..0] == "";
      while cursor < |input|
        invariant Valid() && |result| <= |t| && result == t[..|result|] && Remaining() == t[|result|..]
        invariant separator !in result
        decreases |input| - cursor
      {
        assert t[..|result| + 1] == t[..|result|] + [t[|result|]];
        if input[cursor] == separator {
          UntilIs(t, separator, |result|);
          MoveCursor(1);
          return;
        }
        result := result + [input[cursor]];
        MoveCursor(1);
      }
      UntilIs(t, separator, |result|);
    }

    /** Reads every word left, joined by spaces: the loop ends with the cursor at the end, and what it has gathered
        has exactly the words that were left. */
    method GatherWords() returns (gathered: string)
      requires Valid()
      modifies this`cursor
      ensures Valid() && cursor == |input|
      ensures Words(gathered) == Words(old(Remaining()))
    {
      hide Words, Join, IsWord, TrimStart, FirstWord;
      gathered := "";
      ghost var done: seq<string> := [];
      assert Join(done) == "" by {
        JoinNone();
      }
      assert done + Words(Remaining()) == Words(Remaining());
      while cursor < |input|
        invariant Valid() && done + Words(Remaining()) == Words(old(Remaining()))
        invariant gathered == Join(done) || (cursor == |input| && gathered == Join(done) + " ")
        invariant forall w :: w in done ==> IsWord(w)
        decreases |input| - cursor
      {
        GatherStep(done, Remaining());
        if gathered != "" {
          gathered := gathered + " ";
        }
        var word := ReadString();
        if word == "" {
          NoWords(Remaining());
          assert gathered + word == gathered;
        } else {
          assert done + [word] + Words(Remaining()) == done + ([word] + Words(Remaining()));
          done := done + [word];
        }
        gathered := gathered + word;
      }
      NoWords(Remaining());
      assert done + [] == done;
      WordsOfJoin(done);
      WordsDropTrailing(Join(done), ' ');
    }
  }

  lemma JoinNone()
    ensures Join([]) == ""
  {
  }

  lemma NoWords(s: string)
    requires s == ""
    ensures Words(s) == []
  {
  }

  /** One round of the gathering loop, on words. */
  lemma GatherStep(done: seq<string>, rest: string)
    requires forall v :: v in done ==> IsWord(v)
    ensures var t := TrimStart(rest);
            var w := FirstWord(t);
            if w == "" then t == "" && Words(rest) == [] && (Join(done) == "" <==> done == [])
            else IsWord(w) && Words(rest) == [w] + Words(t[|w|..]) &&
                 Join(done + [w]) == (if Join(done) == "" then "" else Join(done) + " ") + w
  {
    var w := FirstWord(TrimStart(rest));
    SplitWord(rest);
    JoinSnoc(done, w);
    if w != "" {
      WordsAreWords(rest, 0);
    }
  }

  lemma {:induction false} JoinSnoc(ws: seq<string>, w: string)
    requires forall v :: v in ws ==> IsWord(v)
    ensures Join(ws + [w]) == if ws == [] then w else Join(ws) + " " + w
    ensures Join(ws) == "" <==> ws == []
  {
    if ws == [] {
      assert ws + [w] == [w];
    } else {
      assert ws[0] in ws;
      assert (ws + [w])[1..] == ws[1..] + [w];
      JoinSnoc(ws[1..], w);
      hide IsWord;
      if |ws| == 1 {
        assert ws[1..] + [w] == [w];
      } else {
        var j := Join(ws[1..]);
        assert ws[0] + " " + (j + " " + w) == ws[0] + " " + j + " " + w;
      }
    }
  }

  // ---------------------------------------------------------------------------------------------
  // Beyond ASCII
  // ---------------------------------------------------------------------------------------------

  /** The bytes of a character in UTF-8. */
  function Bytes(c: char): nat {
    if c < '\U{0080}' then 1 else if c < '\U{0800}' then 2 else if c < '\U{10000}' then 3 else 4
  }

  function ByteLength(s: string): (n: nat)
    ensures n >= |s|
  {
    if s == [] then 0 else Bytes(s[0]) + ByteLength(s[1..])
  }

  /** Where one reading of a word leaves the cursor, which counts characters when it peeks.  A read that would cut a
      character in two stops the source altogether and is not described here. */
  function AfterRead(input: string, cursor: nat): (next: nat)
    requires cursor <= |input|
    ensures cursor <= next <= |input| && (cursor < |input| ==> next > cursor)
  {
    var t := TrimStart(input[cursor..]);
    |input| - |t| + |FirstWord(t)|
  }

  /** The cursor after `n` rounds of the gathering loop, whose guard counts bytes. */
  function AfterRounds(input: string, n: nat): (cursor: nat)
    ensures cursor <= |input|
  {
    if n == 0 then 0
    else
      var cursor := AfterRounds(input, n - 1);
      if cursor < ByteLength(input) then AfterRead(input, cursor) else cursor
  }

  lemma {:induction false} AsciiBytes(s: string)
    ensures ByteLength(s) == |s| <==> IsAscii(s)
  {
    if s != [] {
      AsciiBytes(s[1..]);
      assert IsAscii(s) <==> s[0] < '\U{0080}' && IsAscii(s[1..]) by {
        assert forall i :: 0 < i < |s| ==> s[i] == s[1..][i - 1];
      }
    }
  }

  lemma {:induction false} RoundsAdvance(input: string, n: nat)
    requires n <= |input|
    ensures AfterRounds(input, n) >= n
  {
    if n > 0 {
      RoundsAdvance(input, n - 1);
    }
  }

  /** The gathering loop comes to its end exactly on ASCII input: past the last character of any other text the cursor
      still lies below the number of bytes, and no further round moves it. */
  lemma GatheringEndsExactly(input: string)
    ensures (exists n: nat :: AfterRounds(input, n) >= ByteLength(input)) <==> IsAscii(input)
  {
    AsciiBytes(input);
    RoundsAdvance(input, |input|);
  }

  // ---------------------------------------------------------------------------------------------
  // Positions
  // ---------------------------------------------------------------------------------------------

  datatype Coordinate = Absolute(value: real) | Relative(offset: real)

  datatype CommandPosition = CommandPosition(x: Coordinate, y: Coordinate, z: Coordinate)

  datatype Axis = X | Y | Z

  datatype ParseError = Missing(axis: Axis) | Invalid(axis: Axis) | TooMany

  /** Parsing a floating point number. */
  type Numbers = string -> Option<real>

  /** The coordinate a token stands for. */
  function Meaning(number: Numbers, token: string): Option<Coordinate> {
    if token == "~" then Some(Relative(0.0))
    else if token != "" && token[0] == '~' then
      var n := number(token[1..]);
      if n.Some? then Some(Relative(n.value)) else None
    else
      var n := number(token);
      if n.Some? then Some(Absolute(n.value)) else None
  }

  method ParseCoordinate(number: Numbers, token: string, axis: Axis) returns (r: Result<Coordinate, ParseError>)
    ensures r == if Meaning(number, token).Some? then Ok(Meaning(number, token).value) else Err(Invalid(axis))
  {
    if token != "" && token[0] == '~' {
      var offset := token[1..];
      if offset == "" {
        assert token == "~";
        return Ok(Relative(0.0));
      }
      var n := number(offset);
      r := if n.Some? then Ok(Relative(n.value)) else Err(Invalid(axis));
    } else {
      var n := number(token);
      r := if n.Some? then Ok(Absolute(n.value)) else Err(Invalid(axis));
    }
  }

  /** The axes in the order they are written. */
  function AxisAt(i: nat): Axis {
    if i == 0 then X else if i == 1 then Y else Z
  }

  /** Token `i` is the first of the three that does not parse. */
  predicate FirstInvalid(number: Numbers, tokens: seq<string>, i: nat) {
    i < 3 <= |tokens| && Meaning(number, tokens[i]).None? &&
    forall j :: 0 <= j < i ==> Meaning(number, tokens[j]).Some?
  }

  /** What the tokens of a position argument mean: fewer than three leave a coordinate missing, then the first
      that does not parse is reported, and only then that there are too many. */
  ghost predicate Parses(number: Numbers, tokens: seq<string>, r: Result<CommandPosition, ParseError>) {
    match r
    case Ok(p) =>
      && |tokens| == 3
      && Meaning(number, tokens[0]) == Some(p.x) && Meaning(number, tokens[1]) == Some(p.y)
      && Meaning(number, tokens[2]) == Some(p.z)
    case Err(Missing(axis)) => |tokens| < 3 && axis == AxisAt(|tokens|)
    case Err(Invalid(axis)) => exists i: nat :: FirstInvalid(number, tokens, i) && axis == AxisAt(i)
    case Err(TooMany) =>
      && |tokens| > 3
      && forall i :: 0 <= i < 3 ==> Meaning(number, tokens[i]).Some?
  }

  /** The outcome is determined by the tokens, and there is always one. */
  lemma ParsesOneWay(number: Numbers, tokens: seq<string>, a: Result<CommandPosition, ParseError>,
                     b: Result<CommandPosition, ParseError>)
    requires Parses(number, tokens, a) && Parses(number, tokens, b)
    ensures a == b
  {
    if a.Err? && a.error.Invalid? && b.Err? && b.error.Invalid? {
      var i: nat :| FirstInvalid(number, tokens, i) && a.error.axis == AxisAt(i);
      var j: nat :| FirstInvalid(number, tokens, j) && b.error.axis == AxisAt(j);
      assert i == j;
    }
  }

  /** `CommandPosition::parse`: the words left, however spaced, decide the outcome; the input is used up. */
  method ParsePosition(number: Numbers, input: CommandInput) returns (r: Result<CommandPosition, ParseError>)
    requires input.Valid()
    modifies input`cursor
    ensures input.Valid() && input.cursor == |input.input|
    ensures Parses(number, Words(old(input.Remaining())), r)
  {
    hide Words, Meaning;
    var gathered := input.GatherWords();
    var parts := Words(gathered);
    if |parts| < 3 {
      return Err(Missing(AxisAt(|parts|)));
    }
    var x := ParseCoordinate(number, parts[0], X);
    if x.Err? {
      assert FirstInvalid(number, parts, 0);
      return Err(x.error);
    }
    var y := ParseCoordinate(number, parts[1], Y);
    if y.Err? {
      assert FirstInvalid(number, parts, 1);
      return Err(y.error);
    }
    var z := ParseCoordinate(number, parts[2], Z);
    if z.Err? {
      assert FirstInvalid(number, parts, 2);
      return Err(z.error);
    }
    if |parts| > 3 {
      return Err(TooMany);
    }
    r := Ok(CommandPosition(x.value, y.value, z.value));
  }

  /** ERRORS, spelled out.  Too few words name the first axis without one; a word that means nothing names the axis of
      the first such word, also when there are too many words; only then are too many words the error.  A tilde is a
      relative coordinate, with the number behind it or none, any other word an absolute one. */
  lemma ErrorsNameTheAxis(number: Numbers, tokens: seq<string>, r: Result<CommandPosition, ParseError>)
    requires Parses(number, tokens, r)
    ensures |tokens| == 0 ==> r == Err(Missing(X))
    ensures |tokens| == 1 ==> r == Err(Missing(Y))
    ensures |tokens| == 2 ==> r == Err(Missing(Z))
    ensures |tokens| >= 3 && Meaning(number, tokens[0]).None? ==> r == Err(Invalid(X))
    ensures |tokens| >= 3 && Meaning(number, tokens[0]).Some? && Meaning(number, tokens[1]).None? ==> r == Err(Invalid(Y))
    ensures |tokens| > 3 && r.Ok? ==> false
    ensures |tokens| > 3 && (forall i :: 0 <= i < 3 ==> Meaning(number, tokens[i]).Some?) ==> r == Err(TooMany)
    ensures Meaning(number, "~") == Some(Relative(0.0))
    ensures forall t: string :: t != "" ==>
              Meaning(number, "~" + t) == if number(t).Some? then Some(Relative(number(t).value)) else None
  {
    hide Meaning;
    var expected: Result<CommandPosition, ParseError> :=
      if |tokens| < 3 then Err(Missing(AxisAt(|tokens|)))
      else if Meaning(number, tokens[0]).None? then Err(Invalid(X))
      else if Meaning(number, tokens[1]).None? then Err(Invalid(Y))
      else if Meaning(number, tokens[2]).None? then Err(Invalid(Z))
      else if |tokens| > 3 then Err(TooMany)
      else r;
    if |tokens| >= 3 {
      assert Meaning(number, tokens[0]).None? ==> FirstInvalid(number, tokens, 0);
      assert Meaning(number, tokens[0]).Some? && Meaning(number, tokens[1]).None? ==> FirstInvalid(number, tokens, 1);
      assert Meaning(number, tokens[0]).Some? && Meaning(number, tokens[1]).Some? && Meaning(number, tokens[2]).None? ==>
          FirstInvalid(number, tokens, 2);
    }
    assert Parses(number, tokens, expected);
    ParsesOneWay(number, tokens, r, expected);
    TildeMeans(number);
  }

  lemma TildeMeans(number: Numbers)
    ensures Meaning(number, "~") == Some(Relative(0.0))
    ensures forall t: string :: t != "" ==>
              Meaning(number, "~" + t) == if number(t).Some? then Some(Relative(number(t).value)) else None
  {
    assert forall t: string :: ("~" + t)[1..] == t;
  }

  /** The number of a coordinate. */
  function NumberOf(c: Coordinate): real {
    if c.Absolute? then c.value else c.offset
  }

  /** `text` is a way to write `v`: one word that reads back as `v` and cannot be taken for a relative coordinate. */
  predicate Writes(number: Numbers, text: string, v: real) {
    number(text) == Some(v) && IsWord(text) && text[0] != '~'
  }

  /** A coordinate written with `text` for its number; a relative one without offset is a bare tilde. */
  function Text(c: Coordinate, text: string): string {
    match c
    case Absolute(_) => text
    case Relative(v) => if v == 0.0 then "~" else "~" + text
  }

  lemma TextMeans(number: Numbers, c: Coordinate, text: string)
    requires Writes(number, text, NumberOf(c))
    ensures Meaning(number, Text(c, text)) == Some(c) && IsWord(Text(c, text))
  {
    if c.Relative? {
      assert ("~" + text)[1..] == text;
      assert !IsSpace('~');
    }
  }

  /** ROUND TRIP.  Take any position and any texts that read back as its three numbers: written out with them it
      parses back to itself, and to nothing else. */
  lemma WrittenPositionParses(number: Numbers, p: CommandPosition, x: string, y: string, z: string,
                              r: Result<CommandPosition, ParseError>)
    requires Writes(number, x, NumberOf(p.x)) && Writes(number, y, NumberOf(p.y)) && Writes(number, z, NumberOf(p.z))
    ensures Parses(number, Words(Join([Text(p.x, x), Text(p.y, y), Text(p.z, z)])), r) <==> r == Ok(p)
  {
    TextMeans(number, p.x, x);
    TextMeans(number, p.y, y);
    TextMeans(number, p.z, z);
    var tokens := [Text(p.x, x), Text(p.y, y), Text(p.z, z)];
    hide Text, Meaning, IsWord, Writes;
    WordsOfJoin(tokens);
    assert Parses(number, tokens, Ok(p));
    if Parses(number, tokens, r) {
      ParsesOneWay(number, tokens, r, Ok(p));
    }
  }

  /** Texts that write a number exist. */
  lemma SevenIsWritten()
    ensures Writes(text => if text == "7" then Some(7.0) else None, "7", 7.0)
  {
  }
}
