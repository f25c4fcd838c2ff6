/** The items, tags and recipes crafting looks at. */
module CraftingData {
  import opened Options

  /** The registered items and the items of each tag. */
  datatype Registry = Registry(items: set<string>, tags: map<string, set<string>>)

  /** An ingredient names an item, or with a leading '#' a tag. */
  predicate Allows(reg: Registry, allowed: string, item: string) {
    (allowed != "" && allowed[0] == '#' && allowed[1..] in reg.tags && item in reg.tags[allowed[1..]])
    || allowed == item
  }

  predicate SymbolMatches(reg: Registry, allowed: seq<string>, item: string) {
    exists i :: 0 <= i < |allowed| && Allows(reg, allowed[i], item)
  }

  /** `symbol_matches_item`. */
  method SymbolMatchesItem(reg: Registry, symbolAllowed: seq<string>, itemId: string) returns (r: bool)
    ensures r == SymbolMatches(reg, symbolAllowed, itemId)
  {
    for i := 0 to |symbolAllowed|
      invariant !SymbolMatches(reg, symbolAllowed[..i], itemId)
    {
      if Allows(reg, symbolAllowed[i], itemId) {
        return true;
      }
      assert symbolAllowed[..i + 1] == symbolAllowed[..i] + [symbolAllowed[i]];
    }
    assert symbolAllowed[..|symbolAllowed|] == symbolAllowed;
    r := false;
  }

  type Grid = seq<seq<Option<string>>>
}
