/** Shaped recipes: normalising the grid, and what matching against a pattern means. */
module CraftingGrid {
  import opened Options
  import opened CraftingData

  /** Rows of one length, at least one by one. */
  predicate Rect(g: Grid) {
    |g| > 0 && |g[0]| > 0 && forall r :: 0 <= r < |g| ==> |g[r]| == |g[0]|
  }

  function Width(g: Grid): nat {
    if |g| == 0 then 0 else |g[0]|
  }

  /** The item at a place; nothing lies outside the grid. */
  function At(g: Grid, r: int, c: int): Option<string> {
    if 0 <= r < |g| && 0 <= c < |g[r]| then g[r][c] else None
  }

  predicate RowHas(g: Grid, r: int) {
    exists c :: 0 <= c < Width(g) && At(g, r, c).Some?
  }

  predicate ColHas(g: Grid, c: int) {
    exists r :: 0 <= r < |g| && At(g, r, c).Some?
  }

  ghost predicate HasItem(g: Grid) {
    exists r, c :: At(g, r, c).Some?
  }

  /** The first row below `n` with an item, or `n`. */
  function FirstRow(g: Grid, n: nat): (i: int)
    ensures 0 <= i <= n && (i < n ==> RowHas(g, i)) && forall j :: 0 <= j < i ==> !RowHas(g, j)
  {
    if n == 0 then 0
    else
      var i := FirstRow(g, n - 1);
      if i < n - 1 || RowHas(g, n - 1) then i else n
  }

  /** The last row below `n` with an item, or -1. */
  function LastRow(g: Grid, n: nat): (i: int)
    ensures -1 <= i < n && (i >= 0 ==> RowHas(g, i)) && forall j :: i < j < n ==> !RowHas(g, j)
  {
    if n == 0 then -1 else if RowHas(g, n - 1) then n - 1 else LastRow(g, n - 1)
  }

  /** The first column below `n` with an item, or `n`. */
  function FirstCol(g: Grid, n: nat): (i: int)
    ensures 0 <= i <= n && (i < n ==> ColHas(g, i)) && forall j :: 0 <= j < i ==> !ColHas(g, j)
  {
    if n == 0 then 0
    else
      var i := FirstCol(g, n - 1);
      if i < n - 1 || ColHas(g, n - 1) then i else n
  }

  /** The last column below `n` with an item, or -1. */
  function LastCol(g: Grid, n: nat): (i: int)
    ensures -1 <= i < n && (i >= 0 ==> ColHas(g, i)) && forall j :: i < j < n ==> !ColHas(g, j)
  {
    if n == 0 then -1 else if ColHas(g, n - 1) then n - 1 else LastCol(g, n - 1)
  }

  /** Where the items begin and end; the whole grid if there are none. */
  function Top(g: Grid): int {
    if FirstRow(g, |g|) == |g| then 0 else FirstRow(g, |g|)
  }

  function Bottom(g: Grid): int {
    if LastRow(g, |g|) < 0 then |g| - 1 else LastRow(g, |g|)
  }

  function Leftmost(g: Grid): int {
    if FirstCol(g, Width(g)) == Width(g) then 0 else FirstCol(g, Width(g))
  }

  function Rightmost(g: Grid): int {
    if LastCol(g, Width(g)) < 0 then Width(g) - 1 else LastCol(g, Width(g))
  }

  /** The part of the grid of `h` rows and `w` columns from row `t` and column `l` on. */
  function Window(g: Grid, t: int, l: int, h: nat, w: nat): (n: Grid)
    ensures |n| == h && forall r :: 0 <= r < h ==> |n[r]| == w
    ensures forall r, c :: 0 <= r < h && 0 <= c < w ==> n[r][c] == At(g, t + r, l + c)
  {
    seq(h, r => seq(w, c => At(g, t + r, l + c)))
  }

  function Extent(lo: int, hi: int): nat {
    if lo <= hi then hi - lo + 1 else 0
  }

  /** The grid without its empty border rows and columns. */
  function Normalized(g: Grid): Grid {
    if |g| == 0 || |g[0]| == 0 then g
    else Window(g, Top(g), Leftmost(g), Extent(Top(g), Bottom(g)), Extent(Leftmost(g), Rightmost(g)))
  }

  /** The items lie between these rows and columns and touch all four. */
  ghost predicate Frame(g: Grid, t: int, b: int, l: int, r: int) {
    && RowHas(g, t) && RowHas(g, b) && ColHas(g, l) && ColHas(g, r)
    && forall i, j :: At(g, i, j).Some? ==> t <= i <= b && l <= j <= r
  }

  lemma FrameIsUnique(g: Grid, t: int, b: int, l: int, r: int, t': int, b': int, l': int, r': int)
    requires Frame(g, t, b, l, r) && Frame(g, t', b', l', r')
    ensures t == t' && b == b' && l == l' && r == r'
  {
  }

  /** An item's row and column are not empty. */
  lemma ItemShows(g: Grid, r: int, c: int)
    requires Rect(g) && At(g, r, c).Some?
    ensures 0 <= r < |g| && 0 <= c < Width(g) && RowHas(g, r) && ColHas(g, c)
  {
  }

  lemma BoundsAreFrame(g: Grid)
    requires Rect(g) && HasItem(g)
    ensures Frame(g, Top(g), Bottom(g), Leftmost(g), Rightmost(g))
  {
    var r0, c0 :| At(g, r0, c0).Some?;
    ItemShows(g, r0, c0);
    hide RowHas, ColHas;
    forall i, j | At(g, i, j).Some?
      ensures Top(g) <= i <= Bottom(g) && Leftmost(g) <= j <= Rightmost(g)
    {
      ItemShows(g, i, j);
    }
  }

  /** `h` holds the items of `g`, all of them moved by the same step, and nothing else. */
  ghost predicate Translated(g: Grid, h: Grid, dr: int, dc: int) {
    forall r: int, c: int {:trigger At(g, r, c)} :: At(h, r + dr, c + dc) == At(g, r, c)
  }

  lemma TranslatedAt(g: Grid, h: Grid, dr: int, dc: int, r: int, c: int)
    requires Translated(g, h, dr, dc)
    ensures At(h, r + dr, c + dc) == At(g, r, c)
  {
  }

  lemma MovedRow(g: Grid, h: Grid, dr: int, dc: int, r: int)
    requires Rect(h) && Translated(g, h, dr, dc) && RowHas(g, r)
    ensures RowHas(h, r + dr)
  {
    var c :| 0 <= c < Width(g) && At(g, r, c).Some?;
    ItemShows(h, r + dr, c + dc);
  }

  lemma MovedCol(g: Grid, h: Grid, dr: int, dc: int, c: int)
    requires Rect(h) && Translated(g, h, dr, dc) && ColHas(g, c)
    ensures ColHas(h, c + dc)
  {
    var r :| 0 <= r < |g| && At(g, r, c).Some?;
    ItemShows(h, r + dr, c + dc);
  }

  /** Moving the items moves the frame. */
  lemma MovedFrame(g: Grid, h: Grid, dr: int, dc: int, t: int, b: int, l: int, r: int)
    requires Rect(h) && Translated(g, h, dr, dc) && Frame(g, t, b, l, r)
    ensures Frame(h, t + dr, b + dr, l + dc, r + dc)
  {
    MovedRow(g, h, dr, dc, t);
    MovedRow(g, h, dr, dc, b);
    MovedCol(g, h, dr, dc, l);
    MovedCol(g, h, dr, dc, r);
    forall i, j | At(h, i, j).Some?
      ensures t + dr <= i <= b + dr && l + dc <= j <= r + dc
    {
      assert At(g, i + -dr, j + -dc).Some?;
    }
  }

  lemma SameWindow(g: Grid, h: Grid, dr: int, dc: int, t: int, l: int, height: nat, width: nat)
    requires Translated(g, h, dr, dc)
    ensures Window(h, t + dr, l + dc, height, width) == Window(g, t, l, height, width)
  {
    var m, n := Window(h, t + dr, l + dc, height, width), Window(g, t, l, height, width);
    forall r | 0 <= r < height
      ensures m[r] == n[r]
    {
      forall c | 0 <= c < width
        ensures m[r][c] == n[r][c]
      {
        assert At(h, t + r + dr, l + c + dc) == At(g, t + r, l + c);
      }
    }
  }

  /** Grids of any size that hold the same items, moved, have the same normal form. */
  lemma MovedIsSame(g: Grid, h: Grid, dr: int, dc: int)
    requires Rect(g) && Rect(h) && HasItem(g) && Translated(g, h, dr, dc)
    ensures HasItem(h) && Normalized(g) == Normalized(h)
  {
    hide Top, Bottom, Leftmost, Rightmost, Window;
    var r0, c0 :| At(g, r0, c0).Some?;
    assert At(h, r0 + dr, c0 + dc).Some?;
    BoundsAreFrame(g);
    BoundsAreFrame(h);
    MovedFrame(g, h, dr, dc, Top(g), Bottom(g), Leftmost(g), Rightmost(g));
    FrameIsUnique(h, Top(h), Bottom(h), Leftmost(h), Rightmost(h),
                  Top(g) + dr, Bottom(g) + dr, Leftmost(g) + dc, Rightmost(g) + dc);
    SameWindow(g, h, dr, dc, Top(g), Leftmost(g), Extent(Top(g), Bottom(g)), Extent(Leftmost(g), Rightmost(g)));
  }

  /** The normal form keeps every item, moved to the corner, and adds none. */
  lemma KeepsItems(g: Grid)
    requires Rect(g) && HasItem(g)
    ensures Rect(Normalized(g)) && Translated(g, Normalized(g), -Top(g), -Leftmost(g))
  {
    NormalizedSize(g);
    forall r: int, c: int
      ensures At(Normalized(g), r - Top(g), c - Leftmost(g)) == At(g, r, c)
    {
      KeepsItem(g, r, c);
    }
  }

  lemma KeepsItem(g: Grid, r: int, c: int)
    requires Rect(g) && HasItem(g)
    ensures At(Normalized(g), r - Top(g), c - Leftmost(g)) == At(g, r, c)
  {
    BoundsAreFrame(g);
    hide Top, Bottom, Leftmost, Rightmost, RowHas, ColHas, Window;
    WindowAt(g, Top(g), Leftmost(g), Extent(Top(g), Bottom(g)), Extent(Leftmost(g), Rightmost(g)),
             r - Top(g), c - Leftmost(g));
  }

  lemma NormalizedSize(g: Grid)
    requires Rect(g) && HasItem(g)
    ensures Rect(Normalized(g))
    ensures |Normalized(g)| - 1 == Bottom(g) - Top(g) && Width(Normalized(g)) - 1 == Rightmost(g) - Leftmost(g)
  {
    BoundsAreFrame(g);
    var r, c :| At(g, r, c).Some?;
    assert Top(g) <= r <= Bottom(g) && Leftmost(g) <= c <= Rightmost(g);
  }

  lemma WindowAt(g: Grid, t: int, l: int, h: nat, w: nat, r: int, c: int)
    ensures At(Window(g, t, l, h, w), r, c) == if 0 <= r < h && 0 <= c < w then At(g, t + r, l + c) else None
  {
  }

  /** NORMALISATION.  The normal form has no empty border row or column, normalising again changes nothing, and
      two grids have the same normal form exactly when one holds the items of the other, moved. */
  lemma NormalForm(g: Grid, h: Grid)
    requires Rect(g) && HasItem(g) && Rect(h) && HasItem(h)
    ensures var n := Normalized(g); Frame(n, 0, |n| - 1, 0, Width(n) - 1)
    ensures Normalized(Normalized(g)) == Normalized(g)
    ensures Normalized(g) == Normalized(h) <==> exists dr, dc :: Translated(g, h, dr, dc)
  {
    hide Normalized, Top, Bottom, Leftmost, Rightmost, RowHas, ColHas, At, Translated;
    KeepsItems(g);
    KeepsItems(h);
    BoundsAreFrame(g);
    NormalizedSize(g);
    var n := Normalized(g);
    MovedFrame(g, n, -Top(g), -Leftmost(g), Top(g), Bottom(g), Leftmost(g), Rightmost(g));
    MovedIsSame(g, n, -Top(g), -Leftmost(g));
    if Normalized(g) == Normalized(h) {
      SameFormMoved(g, h);
    }
    if dr, dc :| Translated(g, h, dr, dc) {
      MovedIsSame(g, h, dr, dc);
    }
  }

  lemma SameFormMoved(g: Grid, h: Grid)
    requires Rect(g) && HasItem(g) && Rect(h) && HasItem(h) && Normalized(g) == Normalized(h)
    ensures Translated(g, h, Top(h) - Top(g), Leftmost(h) - Leftmost(g))
  {
    hide Normalized, Top, Leftmost, At, Translated;
    var dr, dc := Top(h) - Top(g), Leftmost(h) - Leftmost(g);
    KeepsItems(g);
    KeepsItems(h);
    forall r: int, c: int
      ensures At(h, r + dr, c + dc) == At(g, r, c)
    {
      TranslatedAt(g, Normalized(g), -Top(g), -Leftmost(g), r, c);
      TranslatedAt(h, Normalized(h), -Top(h), -Leftmost(h), r + dr, c + dc);
    }
    AllTranslated(g, h, dr, dc);
  }

  lemma AllTranslated(g: Grid, h: Grid, dr: int, dc: int)
    requires forall r: int, c: int {:trigger At(g, r, c)} :: At(h, r + dr, c + dc) == At(g, r, c)
    ensures Translated(g, h, dr, dc)
  {
  }

  class CraftingGrid {
    var cells: Grid

    constructor (cells: Grid)
      ensures this.cells == cells
    {
      this.cells := cells;
    }

    /** `normalize_grid`: cuts the grid down in place; a grid without items stays as it is. */
    method Normalize()
      requires cells == [] || cells[0] == [] || Rect(cells)
      modifies this
      ensures cells == Normalized(old(cells))
    {
      if |cells| == 0 || |cells[0]| == 0 {
        return;
      }
      var top, bottom := FindRows();
      var left, right := FindColumns();
      var trimmed: Grid := [];
      for i := top to bottom + 1
        invariant cells == old(cells)
        invariant trimmed == Window(cells, top, left, i - top, Extent(left, right))
      {
        RowOfWindow(cells, top, left, i, right);
        trimmed := trimmed + [cells[i][left..right + 1]];
      }
      cells := trimmed;
    }

    method FindRows() returns (top: nat, bottom: nat)
      requires Rect(cells)
      ensures top == Top(cells) && bottom == Bottom(cells) && top <= bottom < |cells|
    {
      var i := 0;
      while i < |cells| && !RowHas(cells, i)
        invariant 0 <= i <= |cells| && forall j :: 0 <= j < i ==> !RowHas(cells, j)
      {
        i := i + 1;
      }
      top := if i == |cells| then 0 else i;
      var k := |cells|;
      while k > 0 && !RowHas(cells, k - 1)
        invariant 0 <= k <= |cells| && forall j :: k <= j < |cells| ==> !RowHas(cells, j)
      {
        k := k - 1;
      }
      bottom := if k == 0 then |cells| - 1 else k - 1;
    }

    method FindColumns() returns (left: nat, right: nat)
      requires Rect(cells)
      ensures left == Leftmost(cells) && right == Rightmost(cells) && left <= right < Width(cells)
    {
      var i := 0;
      while i < |cells[0]| && !ColHas(cells, i)
        invariant 0 <= i <= |cells[0]| && forall j :: 0 <= j < i ==> !ColHas(cells, j)
      {
        i := i + 1;
      }
      left := if i == |cells[0]| then 0 else i;
      var k := |cells[0]|;
      while k > 0 && !ColHas(cells, k - 1)
        invariant 0 <= k <= |cells[0]| && forall j :: k <= j < |cells[0]| ==> !ColHas(cells, j)
      {
        k := k - 1;
      }
      right := if k == 0 then |cells[0]| - 1 else k - 1;
    }
  }

  lemma RowOfWindow(g: Grid, top: nat, left: nat, i: nat, right: nat)
    requires Rect(g) && top <= i < |g| && left <= right < Width(g)
    ensures Window(g, top, left, i - top + 1, right - left + 1) ==
            Window(g, top, left, i - top, right - left + 1) + [g[i][left..right + 1]]
  {
    var m, n := Window(g, top, left, i - top + 1, right - left + 1), Window(g, top, left, i - top, right - left + 1);
    forall r | 0 <= r < |n|
      ensures m[r] == n[r]
    {
    }
    assert m[i - top] == g[i][left..right + 1];
    assert m == m[..i - top] + [m[i - top]];
    assert m[..i - top] == n;
  }

  // ---------------------------------------------------------------------------------------------
  // Matching a pattern
  // ---------------------------------------------------------------------------------------------

  /** A space wants an empty cell, any other symbol an item its key allows. */
  predicate Fits(reg: Registry, key: map<char, seq<string>>, symbol: char, cell: Option<string>) {
    if cell.None? then symbol == ' ' else symbol in key && SymbolMatches(reg, key[symbol], cell.value)
  }

  /** Rows no longer than the first; comparing a longer one would index past the end of the grid. */
  predicate IsPattern(pattern: seq<string>) {
    forall r :: 0 <= r < |pattern| ==> |pattern[r]| <= |pattern[0]|
  }

  predicate MatchesShaped(reg: Registry, pattern: seq<string>, key: map<char, seq<string>>, grid: Grid)
    requires IsPattern(pattern)
  {
    var n := Normalized(grid);
    && |n| == |pattern| > 0 && Width(n) == |pattern[0]|
    && forall r, c :: 0 <= r < |pattern| && 0 <= c < |pattern[r]| ==> Fits(reg, key, pattern[r][c], At(n, r, c))
  }

  /** `matches_crafting_shaped`. */
  method MatchesCraftingShaped(reg: Registry, pattern: seq<string>, key: map<char, seq<string>>, grid: Grid)
    returns (r: bool)
    requires IsPattern(pattern) && Rect(grid)
    ensures r == MatchesShaped(reg, pattern, key, grid)
  {
    var cut := new CraftingGrid(grid);
    cut.Normalize();
    var cells := cut.cells;
    if |cells| != |pattern| || |cells[0]| != |pattern[0]| {
      return false;
    }
    for i := 0 to |pattern|
      invariant forall r, c :: 0 <= r < i && 0 <= c < |pattern[r]| ==> Fits(reg, key, pattern[r][c], At(cells, r, c))
    {
      for c := 0 to |pattern[i]|
        invariant forall d :: 0 <= d < c ==> Fits(reg, key, pattern[i][d], At(cells, i, d))
      {
        var fits := CellFits(reg, key, pattern[i][c], cells[i][c]);
        if !fits {
          return false;
        }
      }
    }
    r := true;
  }

  method CellFits(reg: Registry, lookup: map<char, seq<string>>, symbol: char, cell: Option<string>) returns (r: bool)
    ensures r == Fits(reg, lookup, symbol, cell)
  {
    match cell
    case None => r := symbol == ' ';
    case Some(name) =>
      if symbol !in lookup {
        return false;
      }
      r := SymbolMatchesItem(reg, lookup[symbol], name);
  }

  /** Where the items lie in the grid does not matter, nor how large the grid is. */
  lemma ShapedIgnoresPlace(reg: Registry, pattern: seq<string>, key: map<char, seq<string>>, g: Grid, h: Grid,
                           dr: int, dc: int)
    requires IsPattern(pattern) && Rect(g) && Rect(h) && HasItem(g) && Translated(g, h, dr, dc)
    ensures MatchesShaped(reg, pattern, key, g) == MatchesShaped(reg, pattern, key, h)
  {
    MovedIsSame(g, h, dr, dc);
  }

  /** Every symbol of the pattern fits the cell under it; nothing is asked beyond the end of a short row. */
  ghost predicate LaidOver(reg: Registry, pattern: seq<string>, key: map<char, seq<string>>, g: Grid, t: int, l: int) {
    forall r, c :: 0 <= r < |pattern| && 0 <= c < |pattern[r]| ==> Fits(reg, key, pattern[r][c], At(g, t + r, l + c))
  }

  /** MATCHING, in general: patterns with short rows, keys that give the space a meaning and grids without items
      included.  A grid with items matches when its items fill a frame of the pattern's size and the pattern fits over
      it; one without matches only a blank pattern of its own size. */
  lemma ShapedInGeneral(reg: Registry, pattern: seq<string>, key: map<char, seq<string>>, g: Grid)
    requires Rect(g) && IsPattern(pattern)
    ensures HasItem(g) ==>
              (MatchesShaped(reg, pattern, key, g) <==>
               |pattern| > 0 && exists t, l ::
                 Frame(g, t, t + |pattern| - 1, l, l + |pattern[0]| - 1) && LaidOver(reg, pattern, key, g, t, l))
    ensures !HasItem(g) ==>
              (MatchesShaped(reg, pattern, key, g) <==>
               |g| == |pattern| && |g[0]| == |pattern[0]| && forall r :: 0 <= r < |pattern| ==> Blank(pattern[r]))
  {
    if HasItem(g) {
      ShapedInFrame(reg, pattern, key, g);
    } else {
      EmptyIsNormal(g);
      hide Normalized;
    }
  }

  /** The item is named by the entry itself, or belongs to the tag the entry names after a '#'. */
  predicate Lists(reg: Registry, entry: string, item: string) {
    || entry == item
    || exists tag :: tag in reg.tags && entry == "#" + tag && item in reg.tags[tag]
  }

  /** With its corner at the cell, the pattern lies over empty cells with its spaces and over items that its key lists
      with its other symbols. */
  ghost predicate Covers(reg: Registry, pattern: seq<string>, key: map<char, seq<string>>, g: Grid, t: int, l: int) {
    forall r, c :: 0 <= r < |pattern| && 0 <= c < |pattern[r]| ==>
      match At(g, t + r, l + c)
      case None => pattern[r][c] == ' '
      case Some(item) =>
        pattern[r][c] in key && exists entry :: entry in key[pattern[r][c]] && Lists(reg, entry, item)
  }

  /** MATCHING, cell by cell.  A grid with items matches exactly when the pattern covers the frame its items fill: every
      cell under a space is empty, and every item is one the key of the symbol above it lists. */
  lemma MatchesExactly(reg: Registry, pattern: seq<string>, key: map<char, seq<string>>, g: Grid)
    requires Rect(g) && HasItem(g) && IsPattern(pattern)
    ensures MatchesShaped(reg, pattern, key, g) <==>
            |pattern| > 0 && exists t, l ::
              Frame(g, t, t + |pattern| - 1, l, l + |pattern[0]| - 1) && Covers(reg, pattern, key, g, t, l)
  {
    ShapedInFrame(reg, pattern, key, g);
    hide MatchesShaped, Frame, At, LaidOver, Covers;
    forall t, l
      ensures LaidOver(reg, pattern, key, g, t, l) <==> Covers(reg, pattern, key, g, t, l)
    {
      LaidOverCovers(reg, pattern, key, g, t, l);
    }
  }

  lemma LaidOverCovers(reg: Registry, pattern: seq<string>, key: map<char, seq<string>>, g: Grid, t: int, l: int)
    ensures LaidOver(reg, pattern, key, g, t, l) <==> Covers(reg, pattern, key, g, t, l)
  {
    hide At;
    forall symbol, cell: Option<string>
      ensures Fits(reg, key, symbol, cell) <==>
              match cell
              case None => symbol == ' '
              case Some(item) => symbol in key && exists entry :: entry in key[symbol] && Lists(reg, entry, item)
    {
      if cell.Some? && symbol in key {
        EntriesAllow(reg, key[symbol], cell.value);
      }
    }
    hide Fits, Lists;
  }

  lemma EntriesAllow(reg: Registry, entries: seq<string>, item: string)
    ensures SymbolMatches(reg, entries, item) <==> exists entry :: entry in entries && Lists(reg, entry, item)
  {
    forall entry
      ensures Allows(reg, entry, item) <==> Lists(reg, entry, item)
    {
      assert entry != "" && entry[0] == '#' ==> entry == "#" + entry[1..];
      assert forall tag :: ("#" + tag)[1..] == tag;
    }
    hide Allows, Lists;
    if i :| 0 <= i < |entries| && Allows(reg, entries[i], item) {
      assert entries[i] in entries;
    }
    if entry :| entry in entries && Lists(reg, entry, item) {
      var i :| 0 <= i < |entries| && entries[i] == entry;
      assert Allows(reg, entries[i], item);
    }
  }

  predicate Blank(row: string) {
    forall c :: 0 <= c < |row| ==> row[c] == ' '
  }

  lemma EmptyIsNormal(g: Grid)
    requires Rect(g) && !HasItem(g)
    ensures |Normalized(g)| == |g| && Width(Normalized(g)) == |g[0]|
    ensures forall r: int, c: int :: At(Normalized(g), r, c).None?
  {
    assert forall r :: !RowHas(g, r);
    assert forall c :: !ColHas(g, c);
    hide RowHas, ColHas;
    forall r: int, c: int
      ensures At(Normalized(g), r, c).None?
    {
      WindowAt(g, Top(g), Leftmost(g), Extent(Top(g), Bottom(g)), Extent(Leftmost(g), Rightmost(g)), r, c);
    }
  }

  lemma ShapedInFrame(reg: Registry, pattern: seq<string>, key: map<char, seq<string>>, g: Grid)
    requires Rect(g) && HasItem(g) && IsPattern(pattern)
    ensures MatchesShaped(reg, pattern, key, g) <==>
            |pattern| > 0 && exists t, l ::
              Frame(g, t, t + |pattern| - 1, l, l + |pattern[0]| - 1) && LaidOver(reg, pattern, key, g, t, l)
  {
    BoundsAreFrame(g);
    NormalizedSize(g);
    CellsInFrame(g);
    hide Fits, Top, Bottom, Leftmost, Rightmost, Normalized, RowHas, ColHas;
    if MatchesShaped(reg, pattern, key, g) {
      assert LaidOver(reg, pattern, key, g, Top(g), Leftmost(g));
    }
    if |pattern| > 0 {
      forall t, l | Frame(g, t, t + |pattern| - 1, l, l + |pattern[0]| - 1) && LaidOver(reg, pattern, key, g, t, l)
        ensures MatchesShaped(reg, pattern, key, g)
      {
        FrameIsUnique(g, t, t + |pattern| - 1, l, l + |pattern[0]| - 1, Top(g), Bottom(g), Leftmost(g), Rightmost(g));
      }
    }
  }

  lemma CellsInFrame(g: Grid)
    requires Rect(g) && HasItem(g)
    ensures var n := Normalized(g);
            forall r, c :: 0 <= r < |n| && 0 <= c < Width(n) ==> At(n, r, c) == At(g, Top(g) + r, Leftmost(g) + c)
  {
    NormalizedSize(g);
    hide Top, Bottom, Leftmost, Rightmost;
  }

  /** The player's own grid of two by two, as it is padded to three by three. */
  function Padded(a: Option<string>, b: Option<string>, c: Option<string>, d: Option<string>): Grid {
    [[a, b, None], [c, d, None], [None, None, None]]
  }

  /** The small grid matches what its two rows alone match. */
  lemma SmallGridIsPadded(reg: Registry, pattern: seq<string>, key: map<char, seq<string>>,
                          a: Option<string>, b: Option<string>, c: Option<string>, d: Option<string>)
    requires IsPattern(pattern) && (a.Some? || b.Some? || c.Some? || d.Some?)
    ensures MatchesShaped(reg, pattern, key, Padded(a, b, c, d)) == MatchesShaped(reg, pattern, key, [[a, b], [c, d]])
  {
    var g, h := [[a, b], [c, d]], Padded(a, b, c, d);
    assert At(g, 0, 0) == a && At(g, 0, 1) == b && At(g, 1, 0) == c && At(g, 1, 1) == d;
    assert HasItem(g);
    forall r: int, k: int
      ensures At(h, r + 0, k + 0) == At(g, r, k)
    {
    }
    assert Translated(g, h, 0, 0);
    ShapedIgnoresPlace(reg, pattern, key, g, h, 0, 0);
  }

  /** The symbol at a place; beyond the pattern there are spaces. */
  function Symbol(pattern: seq<string>, r: int, c: int): char {
    if 0 <= r < |pattern| && 0 <= c < |pattern[r]| then pattern[r][c] else ' '
  }

  /** The grid is the pattern laid down somewhere, and nothing else. */
  ghost predicate LaidDown(reg: Registry, pattern: seq<string>, key: map<char, seq<string>>, g: Grid,
                           dr: int, dc: int) {
    forall r: int, c: int {:trigger At(g, r, c)} :: Fits(reg, key, Symbol(pattern, r - dr, c - dc), At(g, r, c))
  }

  ghost predicate RowInked(pattern: seq<string>, r: int) {
    exists c :: Symbol(pattern, r, c) != ' '
  }

  ghost predicate ColInked(pattern: seq<string>, c: int) {
    exists r :: Symbol(pattern, r, c) != ' '
  }

  /** No border row or column of the pattern is blank. */
  ghost predicate Trim(pattern: seq<string>) {
    && |pattern| > 0
    && RowInked(pattern, 0) && RowInked(pattern, |pattern| - 1)
    && ColInked(pattern, 0) && ColInked(pattern, |pattern[0]| - 1)
  }

  predicate RectPattern(pattern: seq<string>) {
    |pattern| > 0 && |pattern[0]| > 0 && forall r :: 0 <= r < |pattern| ==> |pattern[r]| == |pattern[0]|
  }

  /** A laid down pattern has an item exactly where it has ink, so its frame is the grid's. */
  lemma LaidDownFrame(reg: Registry, pattern: seq<string>, key: map<char, seq<string>>, g: Grid, dr: int, dc: int)
    requires Rect(g) && RectPattern(pattern) && Trim(pattern) && ' ' !in key && LaidDown(reg, pattern, key, g, dr, dc)
    ensures Frame(g, dr, dr + |pattern| - 1, dc, dc + |pattern[0]| - 1)
  {
    InkedRow(reg, pattern, key, g, dr, dc, 0);
    InkedRow(reg, pattern, key, g, dr, dc, |pattern| - 1);
    InkedCol(reg, pattern, key, g, dr, dc, 0);
    InkedCol(reg, pattern, key, g, dr, dc, |pattern[0]| - 1);
  }

  lemma InkedRow(reg: Registry, pattern: seq<string>, key: map<char, seq<string>>, g: Grid, dr: int, dc: int, r: int)
    requires Rect(g) && LaidDown(reg, pattern, key, g, dr, dc) && RowInked(pattern, r)
    ensures RowHas(g, r + dr)
  {
    var c :| Symbol(pattern, r, c) != ' ';
    assert Fits(reg, key, Symbol(pattern, r + dr - dr, c + dc - dc), At(g, r + dr, c + dc));
    ItemShows(g, r + dr, c + dc);
  }

  lemma InkedCol(reg: Registry, pattern: seq<string>, key: map<char, seq<string>>, g: Grid, dr: int, dc: int, c: int)
    requires Rect(g) && LaidDown(reg, pattern, key, g, dr, dc) && ColInked(pattern, c)
    ensures ColHas(g, c + dc)
  {
    var r :| Symbol(pattern, r, c) != ' ';
    assert Fits(reg, key, Symbol(pattern, r + dr - dr, c + dc - dc), At(g, r + dr, c + dc));
    ItemShows(g, r + dr, c + dc);
  }

  lemma LaidDownMatches(reg: Registry, pattern: seq<string>, key: map<char, seq<string>>, g: Grid, dr: int, dc: int)
    requires Rect(g) && HasItem(g) && RectPattern(pattern) && Trim(pattern) && ' ' !in key
    requires LaidDown(reg, pattern, key, g, dr, dc)
    ensures MatchesShaped(reg, pattern, key, g)
  {
    LaidDownFrame(reg, pattern, key, g, dr, dc);
    BoundsAreFrame(g);
    FrameIsUnique(g, dr, dr + |pattern| - 1, dc, dc + |pattern[0]| - 1, Top(g), Bottom(g), Leftmost(g), Rightmost(g));
    hide Top, Bottom, Leftmost, Rightmost, Fits, RowHas, ColHas;
    var n := Normalized(g);
    forall r, c | 0 <= r < |pattern| && 0 <= c < |pattern[r]|
      ensures Fits(reg, key, pattern[r][c], At(n, r, c))
    {
      assert Fits(reg, key, Symbol(pattern, r + dr - dr, c + dc - dc), At(g, r + dr, c + dc));
      WindowAt(g, dr, dc, |pattern|, |pattern[0]|, r, c);
    }
  }

  lemma MatchLaysDown(reg: Registry, pattern: seq<string>, key: map<char, seq<string>>, g: Grid)
    requires Rect(g) && HasItem(g) && RectPattern(pattern) && ' ' !in key && MatchesShaped(reg, pattern, key, g)
    ensures LaidDown(reg, pattern, key, g, Top(g), Leftmost(g)) && Trim(pattern)
  {
    hide Top, Bottom, Leftmost, Rightmost, Normalized, Translated, LaidDown, Frame, MatchesShaped, At;
    KeepsItems(g);
    NormalForm(g, g);
    var n := Normalized(g);
    MatchMeans(reg, pattern, key, g);
    InkUnder(reg, pattern, key, n);
    LaidDownMoved(reg, pattern, key, g, n, -Top(g), -Leftmost(g));
  }

  lemma MatchMeans(reg: Registry, pattern: seq<string>, key: map<char, seq<string>>, g: Grid)
    requires RectPattern(pattern) && Rect(Normalized(g)) && MatchesShaped(reg, pattern, key, g)
    ensures var n := Normalized(g);
            |n| == |pattern| && Width(n) == |pattern[0]| && LaidDown(reg, pattern, key, n, 0, 0)
  {
    hide Normalized, Fits;
    FitsEverywhere(reg, pattern, key, Normalized(g));
  }

  lemma LaidDownMoved(reg: Registry, pattern: seq<string>, key: map<char, seq<string>>, g: Grid, n: Grid,
                      dr: int, dc: int)
    requires Translated(g, n, dr, dc) && LaidDown(reg, pattern, key, n, 0, 0)
    ensures LaidDown(reg, pattern, key, g, -dr, -dc)
  {
    forall r: int, c: int
      ensures Fits(reg, key, Symbol(pattern, r - -dr, c - -dc), At(g, r, c))
    {
      hide At, Symbol, Fits;
      TranslatedAt(g, n, dr, dc, r, c);
      assert Fits(reg, key, Symbol(pattern, r + dr - 0, c + dc - 0), At(n, r + dr, c + dc));
    }
  }

  lemma FitsEverywhere(reg: Registry, pattern: seq<string>, key: map<char, seq<string>>, n: Grid)
    requires Rect(n) && RectPattern(pattern) && |n| == |pattern| && Width(n) == |pattern[0]|
    requires forall r, c :: 0 <= r < |pattern| && 0 <= c < |pattern[r]| ==> Fits(reg, key, pattern[r][c], At(n, r, c))
    ensures LaidDown(reg, pattern, key, n, 0, 0)
  {
    forall r: int, c: int
      ensures Fits(reg, key, Symbol(pattern, r - 0, c - 0), At(n, r, c))
    {
      if 0 <= r < |pattern| && 0 <= c < |pattern[0]| {
        assert Fits(reg, key, pattern[r][c], At(n, r, c));
      }
    }
  }

  lemma InkUnder(reg: Registry, pattern: seq<string>, key: map<char, seq<string>>, n: Grid)
    requires RectPattern(pattern) && ' ' !in key && |n| == |pattern| && Width(n) == |pattern[0]|
    requires LaidDown(reg, pattern, key, n, 0, 0)
    requires Frame(n, 0, |n| - 1, 0, Width(n) - 1)
    ensures Trim(pattern)
  {
    assert forall r: int, c: int :: At(n, r, c).Some? ==> Symbol(pattern, r, c) != ' ';
    hide Fits, Symbol;
    assert RowHas(n, 0) && RowHas(n, |n| - 1) && ColHas(n, 0) && ColHas(n, Width(n) - 1);
  }

  /** MATCHING, exactly.  A grid with items matches a rectangular pattern when it is the pattern laid down
      somewhere with nothing around it, provided the pattern has no blank border, and only then. */
  lemma ShapedExactly(reg: Registry, pattern: seq<string>, key: map<char, seq<string>>, g: Grid)
    requires Rect(g) && HasItem(g) && RectPattern(pattern) && ' ' !in key
    ensures MatchesShaped(reg, pattern, key, g) <==>
            Trim(pattern) && exists dr, dc :: LaidDown(reg, pattern, key, g, dr, dc)
  {
    if MatchesShaped(reg, pattern, key, g) {
      MatchLaysDown(reg, pattern, key, g);
    }
    if Trim(pattern) {
      if dr, dc :| LaidDown(reg, pattern, key, g, dr, dc) {
        LaidDownMatches(reg, pattern, key, g, dr, dc);
      }
    }
  }
}
