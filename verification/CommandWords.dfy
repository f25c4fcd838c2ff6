/** Splitting text on whitespace, the way command names and command input are split. */
module CommandWords {

  /** The characters with the Unicode White_Space property. */
  predicate IsSpace(c: char) {
    || '\U{0009}' <= c <= '\U{000D}' || c == ' ' || c == '\U{0085}' || c == '\U{00A0}' || c == '\U{1680}'
    || '\U{2000}' <= c <= '\U{200A}' || c == '\U{2028}' || c == '\U{2029}' || c == '\U{202F}'
    || c == '\U{205F}' || c == '\U{3000}'
  }

  function TrimStart(s: string): (t: string)
    ensures |t| <= |s|
    ensures t != [] ==> !IsSpace(t[0])
    ensures s != [] && !IsSpace(s[0]) ==> t == s
  {
    if s != [] && IsSpace(s[0]) then TrimStart(s[1..]) else s
  }

  function TrimEnd(s: string): (t: string)
    ensures t <= s
    ensures t != [] ==> !IsSpace(t[|t| - 1])
  {
    if s != [] && IsSpace(s[|s| - 1]) then TrimEnd(s[..|s| - 1]) else s
  }

  function Trim(s: string): string {
    TrimEnd(TrimStart(s))
  }

  /** The longest prefix without whitespace. */
  function FirstWord(s: string): (w: string)
    ensures w <= s
    ensures s != [] && !IsSpace(s[0]) ==> w != []
  {
    if s == [] || IsSpace(s[0]) then [] else [s[0]] + FirstWord(s[1..])
  }

  predicate IsWordPart(w: string) {
    forall i :: 0 <= i < |w| ==> !IsSpace(w[i])
  }

  predicate IsWord(w: string) {
    w != [] && IsWordPart(w)
  }

  /** The whitespace-separated words of `s`. */
  function Words(s: string): seq<string>
    decreases |s|
  {
    var t := TrimStart(s);
    if t == [] then [] else [FirstWord(t)] + Words(t[|FirstWord(t)|..])
  }

  /** The words joined by single spaces. */
  function Join(ws: seq<string>): string {
    if ws == [] then "" else if |ws| == 1 then ws[0] else ws[0] + " " + Join(ws[1..])
  }

  lemma {:induction false} FirstWordStops(s: string)
    ensures IsWordPart(FirstWord(s))
    ensures var n := |FirstWord(s)|; n < |s| ==> IsSpace(s[n])
  {
    if s != [] && !IsSpace(s[0]) {
      FirstWordStops(s[1..]);
    }
  }

  lemma {:induction false} WordsAreWords(s: string, i: nat)
    requires i < |Words(s)|
    ensures IsWord(Words(s)[i])
    decreases |s|
  {
    var t := TrimStart(s);
    var rest := t[|FirstWord(t)|..];
    FirstWordStops(t);
    assert Words(s) == [FirstWord(t)] + Words(rest);
    if i > 0 {
      WordsAreWords(rest, i - 1);
      assert Words(s)[i] == Words(rest)[i - 1];
    }
  }

  lemma WordsOfTrimmedStart(s: string)
    ensures Words(TrimStart(s)) == Words(s)
  {
  }

  /** The first word is recognised by what follows it: the end or whitespace. */
  lemma {:induction false} FirstWordIs(w: string, rest: string)
    requires IsWordPart(w) && (rest == [] || IsSpace(rest[0]))
    ensures FirstWord(w + rest) == w
  {
    if w == [] {
      assert w + rest == rest;
    } else {
      assert (w + rest)[1..] == w[1..] + rest;
      FirstWordIs(w[1..], rest);
    }
  }

  lemma WordsCons(w: string, rest: string)
    requires IsWord(w) && (rest == [] || IsSpace(rest[0]))
    ensures Words(w + rest) == [w] + Words(rest)
  {
    FirstWordIs(w, rest);
    assert TrimStart(w + rest) == w + rest;
    assert (w + rest)[|w|..] == rest;
  }

  /** Trailing whitespace adds no word. */
  lemma {:induction false} WordsDropTrailing(s: string, c: char)
    requires IsSpace(c)
    ensures Words(s + [c]) == Words(s)
    decreases |s|
  {
    var t := TrimStart(s);
    TrimStartAppend(s, c);
    if t == [] {
      assert TrimStart([c]) == TrimStart([]);
    } else {
      var w := FirstWord(t);
      var rest := t[|w|..];
      FirstWordStops(t);
      assert t == w + rest && t + [c] == w + (rest + [c]);
      WordsCons(w, rest + [c]);
      WordsDropTrailing(rest, c);
    }
  }

  lemma {:induction false} TrimStartAppend(s: string, c: char)
    ensures TrimStart(s + [c]) == if TrimStart(s) == [] then TrimStart([c]) else TrimStart(s) + [c]
  {
    if s == [] {
      assert s + [c] == [c];
    } else if IsSpace(s[0]) {
      assert (s + [c])[1..] == s[1..] + [c];
      TrimStartAppend(s[1..], c);
    }
  }

  lemma {:induction false} WordsTrimEnd(s: string)
    ensures Words(TrimEnd(s)) == Words(s)
  {
    if s != [] && IsSpace(s[|s| - 1]) {
      var front := s[..|s| - 1];
      assert s == front + [s[|s| - 1]];
      WordsTrimEnd(front);
      WordsDropTrailing(front, s[|s| - 1]);
    }
  }

  /** Trimming does not change the words, and a trimmed text is empty exactly when it has none. */
  lemma WordsOfTrimmed(s: string)
    ensures Words(Trim(s)) == Words(s)
    ensures Trim(s) == [] <==> Words(s) == []
    ensures Trim(s) != [] ==> !IsSpace(Trim(s)[0])
  {
    WordsTrimEnd(TrimStart(s));
    WordsOfTrimmedStart(s);
    assert Trim(s) != [] ==> Trim(s)[0] == TrimStart(s)[0];
    if Trim(s) != [] {
      assert TrimStart(Trim(s)) == Trim(s);
    }
  }

  /** Joining words and splitting again gives the same words. */
  lemma {:induction false} WordsOfJoin(ws: seq<string>)
    requires forall w :: w in ws ==> IsWord(w)
    ensures Words(Join(ws)) == ws
  {
    if ws != [] {
      var rest := if |ws| == 1 then "" else " " + Join(ws[1..]);
      assert ws[0] in ws;
      assert Join(ws) == ws[0] + rest;
      WordsCons(ws[0], rest);
      WordsOfJoin(ws[1..]);
      if |ws| > 1 {
        SkipSpace(Join(ws[1..]));
      }
      assert Words(rest) == ws[1..];
    }
  }

  lemma SkipSpace(s: string)
    ensures Words(" " + s) == Words(s)
  {
    assert (" " + s)[1..] == s;
    assert TrimStart(" " + s) == TrimStart(s);
  }
}
