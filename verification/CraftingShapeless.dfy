/** Shapeless recipes: a greedy assignment of items to ingredients, what it guarantees, and exactly when it is
    right. */
module CraftingShapeless {
  import opened Options
  import opened CraftingData

  /** The registered items an ingredient accepts. */
  function Accepted(reg: Registry, ingredient: string): set<string> {
    set x | x in reg.items && Allows(reg, ingredient, x)
  }

  /** The position of the first item the ingredient accepts, or the number of items. */
  function FirstAccepted(reg: Registry, ingredient: string, items: seq<string>): (p: nat)
    ensures p <= |items|
    ensures p < |items| ==> Allows(reg, ingredient, items[p])
    ensures forall i :: 0 <= i < p ==> !Allows(reg, ingredient, items[i])
  {
    if items == [] || Allows(reg, ingredient, items[0]) then 0 else 1 + FirstAccepted(reg, ingredient, items[1..])
  }

  function Without(items: seq<string>, p: nat): (r: seq<string>)
    requires p < |items|
    ensures |r| == |items| - 1
  {
    items[..p] + items[p + 1..]
  }

  /** Each ingredient in turn takes the first item left that it accepts. */
  predicate Greedy(reg: Registry, ingredients: seq<string>, items: seq<string>) {
    ingredients == [] ||
    var p := FirstAccepted(reg, ingredients[0], items);
    p < |items| && Greedy(reg, ingredients[1..], Without(items, p))
  }

  /** `a` hands out the items, one to each ingredient, so that every ingredient accepts what it gets: a bijection
      between ingredients and items. */
  ghost predicate Assigns(reg: Registry, ingredients: seq<string>, items: seq<string>, a: seq<string>) {
    && |a| == |ingredients|
    && multiset(a) == multiset(items)
    && forall i :: 0 <= i < |a| ==> Allows(reg, ingredients[i], a[i])
  }

  ghost predicate Assignable(reg: Registry, ingredients: seq<string>, items: seq<string>) {
    exists a :: Assigns(reg, ingredients, items, a)
  }

  lemma WithoutIs(items: seq<string>, p: nat)
    requires p < |items|
    ensures multiset(Without(items, p)) == multiset(items) - multiset{items[p]}
  {
    assert items == items[..p] + [items[p]] + items[p + 1..];
  }

  /** SOUNDNESS.  When the greedy pass succeeds on as many items as ingredients, the items can be handed out. */
  lemma {:induction false} GreedyIsSound(reg: Registry, ingredients: seq<string>, items: seq<string>)
    requires |items| == |ingredients| && Greedy(reg, ingredients, items)
    ensures Assignable(reg, ingredients, items)
  {
    if ingredients == [] {
      assert Assigns(reg, ingredients, items, []);
    } else {
      var p := FirstAccepted(reg, ingredients[0], items);
      GreedyIsSound(reg, ingredients[1..], Without(items, p));
      var rest :| Assigns(reg, ingredients[1..], Without(items, p), rest);
      AssignFirst(reg, ingredients, items, p, rest);
    }
  }

  lemma AssignFirst(reg: Registry, ingredients: seq<string>, items: seq<string>, p: nat, rest: seq<string>)
    requires ingredients != [] && p < |items| && Allows(reg, ingredients[0], items[p])
    requires Assigns(reg, ingredients[1..], Without(items, p), rest)
    ensures Assigns(reg, ingredients, items, [items[p]] + rest)
  {
    hide Allows, Without;
    WithoutIs(items, p);
    var a := [items[p]] + rest;
    assert items[p] in multiset(items);
    assert multiset(a) == multiset{items[p]} + multiset(rest);
    forall i | 0 <= i < |a|
      ensures Allows(reg, ingredients[i], a[i])
    {
      assert i > 0 ==> a[i] == rest[i - 1] && ingredients[i] == ingredients[1..][i - 1];
    }
  }

  /** An earlier ingredient accepts nothing a later one does, or nothing but what the later one does. */
  ghost predicate Nested(reg: Registry, ingredients: seq<string>) {
    forall i, j :: 0 <= i < j < |ingredients| ==>
      Accepted(reg, ingredients[i]) !! Accepted(reg, ingredients[j]) ||
      Accepted(reg, ingredients[i]) <= Accepted(reg, ingredients[j])
  }

  predicate Registered(reg: Registry, items: seq<string>) {
    forall i :: 0 <= i < |items| ==> items[i] in reg.items
  }

  /** If the items can be handed out, they can be with any acceptable item going to the first ingredient. */
  lemma Exchange(reg: Registry, ingredients: seq<string>, items: seq<string>, a: seq<string>, p: nat)
    returns (rest: seq<string>)
    requires Nested(reg, ingredients) && Registered(reg, items) && ingredients != []
    requires Assigns(reg, ingredients, items, a) && p < |items| && Allows(reg, ingredients[0], items[p])
    ensures Assigns(reg, ingredients[1..], Without(items, p), rest)
  {
    hide Allows, Without, Nested, Registered;
    var x := items[p];
    WithoutIs(items, p);
    assert x in multiset(items) && x in multiset(a);
    var j :| 0 <= j < |a| && a[j] == x;
    SwapOut(a, j);
    FitsLater(reg, ingredients, items, a, j);
    rest := a[j := a[0]][1..];
    assert |rest| == |ingredients[1..]| && multiset(rest) == multiset(Without(items, p));
    forall i | 0 <= i < |rest|
      ensures Allows(reg, ingredients[1..][i], rest[i])
    {
      assert ingredients[1..][i] == ingredients[i + 1];
    }
  }

  lemma SwapOut(a: seq<string>, j: nat)
    requires j < |a|
    ensures multiset(a[j := a[0]][1..]) == multiset(a) - multiset{a[j]}
  {
    var b := a[j := a[0]];
    assert b == [b[0]] + b[1..];
    assert multiset(b) == multiset{a[0]} + multiset(b[1..]);
    assert multiset(b) == multiset(a) - multiset{a[j]} + multiset{a[0]};
    assert multiset(b[1..]) == multiset(b) - multiset{a[0]};
  }

  /** What the first ingredient would get, the one that gives up its item can take instead. */
  lemma FitsLater(reg: Registry, ingredients: seq<string>, items: seq<string>, a: seq<string>, j: nat)
    requires Nested(reg, ingredients) && Registered(reg, items) && Assigns(reg, ingredients, items, a)
    requires j < |a| && Allows(reg, ingredients[0], a[j])
    ensures Allows(reg, ingredients[j], a[0])
  {
    if j > 0 {
      HandsOutRegistered(reg, items, a, 0);
      HandsOutRegistered(reg, items, a, j);
      assert a[j] in Accepted(reg, ingredients[0]) && a[j] in Accepted(reg, ingredients[j]);
      assert a[0] in Accepted(reg, ingredients[0]);
      assert Accepted(reg, ingredients[0]) <= Accepted(reg, ingredients[j]);
    }
  }

  lemma HandsOutRegistered(reg: Registry, items: seq<string>, a: seq<string>, i: nat)
    requires Registered(reg, items) && multiset(a) == multiset(items) && i < |a|
    ensures a[i] in reg.items
  {
    assert a[i] in multiset(a) && a[i] in multiset(items);
    var k :| 0 <= k < |items| && items[k] == a[i];
  }

  lemma {:induction false} GreedyIsComplete(reg: Registry, ingredients: seq<string>, items: seq<string>)
    requires Nested(reg, ingredients) && Registered(reg, items) && Assignable(reg, ingredients, items)
    ensures Greedy(reg, ingredients, items)
  {
    if ingredients != [] {
      var a :| Assigns(reg, ingredients, items, a);
      var p := FirstAccepted(reg, ingredients[0], items);
      assert a[0] in multiset(a) && a[0] in multiset(items);
      var k :| 0 <= k < |items| && items[k] == a[0];
      var rest := Exchange(reg, ingredients, items, a, p);
      GreedyIsComplete(reg, ingredients[1..], Without(items, p));
    }
  }

  // ---------------------------------------------------------------------------------------------
  // Where it goes wrong
  // ---------------------------------------------------------------------------------------------

  /** How many of the items lie in `s`. */
  function Inside(items: seq<string>, s: set<string>): nat {
    if items == [] then 0 else (if items[0] in s then 1 else 0) + Inside(items[1..], s)
  }

  /** How many of the ingredients accept nothing outside `s`. */
  ghost function Bound(reg: Registry, ingredients: seq<string>, s: set<string>): nat {
    if ingredients == [] then 0
    else (if Accepted(reg, ingredients[0]) <= s then 1 else 0) + Bound(reg, ingredients[1..], s)
  }

  lemma {:induction false} InsideAppend(a: seq<string>, b: seq<string>, s: set<string>)
    ensures Inside(a + b, s) == Inside(a, s) + Inside(b, s)
  {
    if a == [] {
      assert a + b == b;
    } else {
      assert (a + b)[1..] == a[1..] + b;
      InsideAppend(a[1..], b, s);
    }
  }

  lemma InsideWithout(items: seq<string>, p: nat, s: set<string>)
    requires p < |items|
    ensures Inside(Without(items, p), s) == Inside(items, s) - if items[p] in s then 1 else 0
  {
    assert items == items[..p] + ([items[p]] + items[p + 1..]);
    InsideAppend(items[..p], [items[p]] + items[p + 1..], s);
    InsideAppend([items[p]], items[p + 1..], s);
    InsideAppend(items[..p], items[p + 1..], s);
    assert Inside([items[p]], s) == if items[p] in s then 1 else 0;
  }

  /** Where more ingredients are bound to `s` than there are items in `s`, the greedy pass fails. */
  lemma {:induction false} TooFew(reg: Registry, ingredients: seq<string>, items: seq<string>, s: set<string>)
    requires Registered(reg, items) && Bound(reg, ingredients, s) > Inside(items, s)
    ensures !Greedy(reg, ingredients, items)
  {
    if ingredients != [] {
      var p := FirstAccepted(reg, ingredients[0], items);
      if p < |items| {
        InsideWithout(items, p, s);
        assert items[p] in Accepted(reg, ingredients[0]);
        TooFew(reg, ingredients[1..], Without(items, p), s);
      }
    }
  }

  /** One item for each ingredient, outside `s` unless the ingredient is bound to it. */
  lemma {:induction false} OneEach(reg: Registry, ingredients: seq<string>, s: set<string>) returns (z: seq<string>)
    requires forall i :: 0 <= i < |ingredients| ==> Accepted(reg, ingredients[i]) != {}
    ensures |z| == |ingredients| && Registered(reg, z) && Inside(z, s) <= Bound(reg, ingredients, s)
    ensures forall i :: 0 <= i < |z| ==> Allows(reg, ingredients[i], z[i])
  {
    if ingredients == [] {
      z := [];
    } else {
      var first := ingredients[0];
      var pool := if Accepted(reg, first) <= s then Accepted(reg, first) else Accepted(reg, first) - s;
      assert Accepted(reg, first) != {};
      assert pool != {};
      var x :| x in pool;
      var rest := OneEach(reg, ingredients[1..], s);
      z := [x] + rest;
      assert z[1..] == rest;
      forall i | 0 <= i < |z|
        ensures Allows(reg, ingredients[i], z[i])
      {
        assert i > 0 ==> z[i] == rest[i - 1] && ingredients[i] == ingredients[1..][i - 1];
      }
    }
  }

  /** Items listed in the order of the ingredients they were chosen for are taken in that order. */
  lemma {:induction false} TakesInOrder(reg: Registry, ingredients: seq<string>, items: seq<string>, k: nat)
    requires k <= |ingredients| && k <= |items| && forall i :: 0 <= i < k ==> Allows(reg, ingredients[i], items[i])
    ensures Greedy(reg, ingredients, items) == Greedy(reg, ingredients[k..], items[k..])
  {
    if k > 0 {
      assert FirstAccepted(reg, ingredients[0], items) == 0;
      assert Without(items, 0) == items[1..];
      TakesInOrder(reg, ingredients[1..], items[1..], k - 1);
      assert ingredients[1..][k - 1..] == ingredients[k..] && items[1..][k - 1..] == items[k..];
    } else {
      assert ingredients[0..] == ingredients && items[0..] == items;
    }
  }

  lemma BoundMember(reg: Registry, ingredients: seq<string>, s: set<string>, j: nat)
    requires j < |ingredients| && Accepted(reg, ingredients[j]) <= s
    ensures Bound(reg, ingredients, s) ==
            1 + Bound(reg, ingredients[..j], s) + Bound(reg, ingredients[j + 1..], s)
  {
    assert ingredients == ingredients[..j] + ([ingredients[j]] + ingredients[j + 1..]);
    BoundAppend(reg, ingredients[..j], [ingredients[j]] + ingredients[j + 1..], s);
    assert ([ingredients[j]] + ingredients[j + 1..])[1..] == ingredients[j + 1..];
  }

  lemma {:induction false} BoundAppend(reg: Registry, a: seq<string>, b: seq<string>, s: set<string>)
    ensures Bound(reg, a + b, s) == Bound(reg, a, s) + Bound(reg, b, s)
  {
    if a == [] {
      assert a + b == b;
    } else {
      assert (a + b)[1..] == a[1..] + b;
      BoundAppend(reg, a[1..], b, s);
    }
  }

  /** The items that lead the greedy pass astray: ingredient `i` takes `x`, which `j` needs, and leaves `y`, which
      `j` cannot use. */
  lemma Astray(reg: Registry, ingredients: seq<string>, i: nat, j: nat, x: string, y: string)
    returns (items: seq<string>)
    requires i < j < |ingredients|
    requires forall k :: 0 <= k < |ingredients| ==> Accepted(reg, ingredients[k]) != {}
    requires x in Accepted(reg, ingredients[i]) && x in Accepted(reg, ingredients[j])
    requires y in Accepted(reg, ingredients[i]) && y !in Accepted(reg, ingredients[j])
    ensures |items| == |ingredients| && Registered(reg, items)
    ensures Assignable(reg, ingredients, items) && !Greedy(reg, ingredients, items)
  {
    var s := Accepted(reg, ingredients[j]);
    var early, mid, late := ingredients[..i], ingredients[i + 1..j], ingredients[j + 1..];
    var before := OneEach(reg, early, s);
    var between := OneEach(reg, mid, s);
    var after := OneEach(reg, late, s);
    items := before + [x] + between + [y] + after;
    var a := before + [y] + between + [x] + after;
    HandedOut(reg, ingredients, i, j, before, between, after, x, y);
    SwappedPair(before, between, after, x, y);
    assert Assigns(reg, ingredients, items, a);
    hide Allows, Accepted, Assigns;
    FailsAfter(reg, ingredients, i, j, items, before, between, after, x, y);
  }

  lemma SwappedPair(before: seq<string>, between: seq<string>, after: seq<string>, x: string, y: string)
    ensures multiset(before + [y] + between + [x] + after) == multiset(before + [x] + between + [y] + after)
  {
  }

  lemma HandedOut(reg: Registry, ingredients: seq<string>, i: nat, j: nat,
                  before: seq<string>, between: seq<string>, after: seq<string>, x: string, y: string)
    requires i < j < |ingredients| && |before| == i && |between| == j - i - 1 && |after| == |ingredients| - j - 1
    requires forall k :: 0 <= k < i ==> Allows(reg, ingredients[..i][k], before[k])
    requires forall k :: 0 <= k < |between| ==> Allows(reg, ingredients[i + 1..j][k], between[k])
    requires forall k :: 0 <= k < |after| ==> Allows(reg, ingredients[j + 1..][k], after[k])
    requires Allows(reg, ingredients[j], x) && Allows(reg, ingredients[i], y)
    ensures var a := before + [y] + between + [x] + after;
            |a| == |ingredients| && forall k :: 0 <= k < |a| ==> Allows(reg, ingredients[k], a[k])
  {
    hide Allows;
    var a := before + [y] + between + [x] + after;
    forall k | 0 <= k < |a|
      ensures Allows(reg, ingredients[k], a[k])
    {
      if k < i {
        assert ingredients[..i][k] == ingredients[k];
      } else if i < k < j {
        assert ingredients[i + 1..j][k - i - 1] == ingredients[k];
      } else if k > j {
        assert ingredients[j + 1..][k - j - 1] == ingredients[k];
      }
    }
  }

  lemma FailsAfter(reg: Registry, ingredients: seq<string>, i: nat, j: nat, items: seq<string>,
                   before: seq<string>, between: seq<string>, after: seq<string>, x: string, y: string)
    requires i < j < |ingredients| && |before| == i
    requires items == before + [x] + between + [y] + after && Registered(reg, items)
    requires forall k :: 0 <= k < i ==> Allows(reg, ingredients[k], before[k])
    requires Allows(reg, ingredients[i], x) && y !in Accepted(reg, ingredients[j])
    requires var s := Accepted(reg, ingredients[j]);
             && Inside(between, s) <= Bound(reg, ingredients[i + 1..j], s)
             && Inside(after, s) <= Bound(reg, ingredients[j + 1..], s)
    ensures !Greedy(reg, ingredients, items)
  {
    hide Allows, Accepted, Greedy, Bound, Inside;
    var s, rest, left := Accepted(reg, ingredients[j]), ingredients[i + 1..], items[i + 1..];
    TakesInOrder(reg, ingredients, items, i + 1);
    LeftOver(before, x, between, y, after);
    InsideLeft(between, y, after, s);
    SliceOfSlice(ingredients, i + 1, j);
    BoundMember(reg, rest, s, j - i - 1);
    TooFew(reg, rest, left, s);
  }

  lemma LeftOver(before: seq<string>, x: string, between: seq<string>, y: string, after: seq<string>)
    ensures (before + [x] + between + [y] + after)[|before| + 1..] == between + ([y] + after)
  {
  }

  lemma SliceOfSlice(s: seq<string>, i: nat, j: nat)
    requires i <= j < |s|
    ensures s[i..][..j - i] == s[i..j] && s[i..][j - i] == s[j] && s[i..][j - i + 1..] == s[j + 1..]
  {
  }

  lemma InsideLeft(between: seq<string>, y: string, after: seq<string>, s: set<string>)
    requires y !in s
    ensures Inside(between + ([y] + after), s) == Inside(between, s) + Inside(after, s)
  {
    InsideAppend(between, [y] + after, s);
    InsideAppend([y], after, s);
    assert [y][1..] == [];
  }

  /** The pass is right about every list of registered items of the right length. */
  ghost predicate AlwaysRight(reg: Registry, ingredients: seq<string>) {
    forall items: seq<string> :: |items| == |ingredients| && Registered(reg, items) ==>
      (Greedy(reg, ingredients, items) <==> Assignable(reg, ingredients, items))
  }

  /** An ingredient no registered item satisfies. */
  ghost predicate Impossible(reg: Registry, ingredients: seq<string>) {
    exists i :: 0 <= i < |ingredients| && Accepted(reg, ingredients[i]) == {}
  }

  lemma ImpossibleNeverAssigned(reg: Registry, ingredients: seq<string>, items: seq<string>)
    requires Impossible(reg, ingredients) && Registered(reg, items)
    ensures !Assignable(reg, ingredients, items)
  {
    var i :| 0 <= i < |ingredients| && Accepted(reg, ingredients[i]) == {};
    forall a
      ensures !Assigns(reg, ingredients, items, a)
    {
      if |a| == |ingredients| && multiset(a) == multiset(items) {
        HandsOutRegistered(reg, items, a, i);
        assert a[i] !in Accepted(reg, ingredients[i]);
      }
    }
  }

  /** COMPLETENESS, exactly.  The greedy pass finds an assignment whenever there is one, for every list of items,
      when each ingredient accepts nothing a later one does or nothing but that, and only then; recipes that no
      items can satisfy aside. */
  lemma GreedyExactly(reg: Registry, ingredients: seq<string>)
    ensures AlwaysRight(reg, ingredients) <==> Impossible(reg, ingredients) || Nested(reg, ingredients)
  {
    hide Greedy, Accepted, Registered, Assignable;
    if Impossible(reg, ingredients) || Nested(reg, ingredients) {
      forall items: seq<string> | |items| == |ingredients| && Registered(reg, items)
        ensures Greedy(reg, ingredients, items) <==> Assignable(reg, ingredients, items)
      {
        if Greedy(reg, ingredients, items) {
          GreedyIsSound(reg, ingredients, items);
        } else if Nested(reg, ingredients) {
          if Assignable(reg, ingredients, items) {
            GreedyIsComplete(reg, ingredients, items);
          }
        } else {
          ImpossibleNeverAssigned(reg, ingredients, items);
        }
      }
    } else {
      var i, j :| 0 <= i < j < |ingredients| &&
        !(Accepted(reg, ingredients[i]) !! Accepted(reg, ingredients[j])) &&
        !(Accepted(reg, ingredients[i]) <= Accepted(reg, ingredients[j]));
      var x :| x in Accepted(reg, ingredients[i]) && x in Accepted(reg, ingredients[j]);
      var y :| y in Accepted(reg, ingredients[i]) && y !in Accepted(reg, ingredients[j]);
      var items := Astray(reg, ingredients, i, j, x, y);
      assert !(Greedy(reg, ingredients, items) <==> Assignable(reg, ingredients, items));
    }
  }

  /** The same items, each as often, in any order. */
  ghost predicate Arrangement(items: seq<string>, moved: seq<string>) {
    multiset(items) == multiset(moved)
  }

  /** The pass gives the same answer for every arrangement of the items. */
  ghost predicate IgnoresOrder(reg: Registry, ingredients: seq<string>) {
    forall items: seq<string>, moved: seq<string> ::
      |items| == |ingredients| && Registered(reg, items) && Arrangement(items, moved) ==>
        Greedy(reg, ingredients, items) == Greedy(reg, ingredients, moved)
  }

  lemma ArrangementIsAlike(reg: Registry, ingredients: seq<string>, items: seq<string>, moved: seq<string>)
    requires Registered(reg, items) && Arrangement(items, moved)
    ensures Registered(reg, moved) && |moved| == |items|
    ensures Assignable(reg, ingredients, items) == Assignable(reg, ingredients, moved)
  {
    assert |multiset(items)| == |items| && |multiset(moved)| == |moved|;
    forall i | 0 <= i < |moved|
      ensures moved[i] in reg.items
    {
      HandsOutRegistered(reg, items, moved, i);
    }
    assert forall a :: Assigns(reg, ingredients, items, a) == Assigns(reg, ingredients, moved, a);
  }

  /** Items handed out in the order of the ingredients are all taken. */
  lemma HandedOutIsTaken(reg: Registry, ingredients: seq<string>, a: seq<string>)
    requires |a| == |ingredients| && forall i :: 0 <= i < |a| ==> Allows(reg, ingredients[i], a[i])
    ensures Greedy(reg, ingredients, a)
  {
    TakesInOrder(reg, ingredients, a, |a|);
    assert ingredients[|a|..] == [];
  }

  /** ORDER, exactly.  The answer does not depend on where the items lie, for any items, exactly when the pass is always
      right: when the ingredients are nested or some ingredient can never be satisfied. */
  lemma OrderMattersExactly(reg: Registry, ingredients: seq<string>)
    ensures IgnoresOrder(reg, ingredients) <==> Impossible(reg, ingredients) || Nested(reg, ingredients)
  {
    hide Greedy, Nested, Impossible, Registered, Assignable, Assigns, Allows;
    GreedyExactly(reg, ingredients);
    if AlwaysRight(reg, ingredients) {
      forall items: seq<string>, moved: seq<string>
        | |items| == |ingredients| && Registered(reg, items) && Arrangement(items, moved)
        ensures Greedy(reg, ingredients, items) == Greedy(reg, ingredients, moved)
      {
        ArrangementIsAlike(reg, ingredients, items, moved);
      }
    } else {
      var items: seq<string> :| |items| == |ingredients| && Registered(reg, items) &&
        Greedy(reg, ingredients, items) != Assignable(reg, ingredients, items);
      OrderShows(reg, ingredients, items);
    }
  }

  /** Where the pass is wrong about some items, it is right about another arrangement of them. */
  lemma OrderShows(reg: Registry, ingredients: seq<string>, items: seq<string>)
    requires |items| == |ingredients| && Registered(reg, items)
    requires Greedy(reg, ingredients, items) != Assignable(reg, ingredients, items)
    ensures !IgnoresOrder(reg, ingredients)
  {
    hide Greedy, Allows;
    if Greedy(reg, ingredients, items) {
      GreedyIsSound(reg, ingredients, items);
      assert false;
    }
    var a :| Assigns(reg, ingredients, items, a);
    HandedOutIsTaken(reg, ingredients, a);
    assert Arrangement(items, a);
  }

  /** In particular with accepted sets pairwise equal or disjoint. */
  lemma OrderDoesNotMatter(reg: Registry, ingredients: seq<string>, items: seq<string>, moved: seq<string>)
    requires forall i, j :: 0 <= i < j < |ingredients| ==>
      Accepted(reg, ingredients[i]) !! Accepted(reg, ingredients[j]) ||
      Accepted(reg, ingredients[i]) == Accepted(reg, ingredients[j])
    requires Arrangement(items, moved) && Registered(reg, items) && |items| == |ingredients|
    ensures Greedy(reg, ingredients, items) == Greedy(reg, ingredients, moved)
    ensures Greedy(reg, ingredients, items) == Assignable(reg, ingredients, items)
  {
    assert Nested(reg, ingredients);
    hide Greedy, Nested, Accepted, Assignable;
    GreedyExactly(reg, ingredients);
    OrderMattersExactly(reg, ingredients);
  }

  /** A recipe that asks for any planks and for oak planks, in that order, takes birch and oak but not oak and
      birch. */
  lemma PlanksDependOnOrder(reg: Registry, planks: string, oak: string, birch: string)
    requires oak != birch && oak != "" && oak[0] != '#'
    requires Allows(reg, planks, oak) && Allows(reg, planks, birch)
    ensures Greedy(reg, [planks, oak], [birch, oak]) && !Greedy(reg, [planks, oak], [oak, birch])
    ensures Assignable(reg, [planks, oak], [oak, birch])
  {
    OneIngredient(reg, oak, oak);
    OneIngredient(reg, oak, birch);
    assert Allows(reg, oak, oak) && !Allows(reg, oak, birch);
    hide Allows;
    FirstTakes(reg, planks, birch, oak);
    FirstTakes(reg, planks, oak, birch);
    assert [planks, oak][1..] == [oak];
    assert Assigns(reg, [planks, oak], [oak, birch], [birch, oak]);
  }

  lemma FirstTakes(reg: Registry, ingredient: string, first: string, second: string)
    requires Allows(reg, ingredient, first)
    ensures FirstAccepted(reg, ingredient, [first, second]) == 0 && Without([first, second], 0) == [second]
  {
  }

  lemma OneIngredient(reg: Registry, ingredient: string, item: string)
    ensures Greedy(reg, [ingredient], [item]) == Allows(reg, ingredient, item)
  {
    assert [ingredient][1..] == [] && (Allows(reg, ingredient, item) ==> Without([item], 0) == []);
  }

  // ---------------------------------------------------------------------------------------------
  // The marking loop
  // ---------------------------------------------------------------------------------------------

  /** The items not marked as used, in order. */
  function Left(items: seq<string>, used: seq<bool>): seq<string>
    requires |items| == |used|
  {
    if items == [] then [] else (if used[0] then [] else [items[0]]) + Left(items[1..], used[1..])
  }

  lemma {:induction false} LeftAppend(items: seq<string>, used: seq<bool>, k: nat)
    requires |items| == |used| && k <= |items|
    ensures Left(items, used) == Left(items[..k], used[..k]) + Left(items[k..], used[k..])
  {
    if k == 0 {
      assert items[0..] == items && used[0..] == used;
    } else {
      LeftAppend(items[1..], used[1..], k - 1);
      LeftHead(items, used);
      LeftHead(items[..k], used[..k]);
      hide Left;
      TailOfPrefix(items, k);
      TailOfPrefix(used, k);
      Regroup(if used[0] then [] else [items[0]], Left(items[1..][..k - 1], used[1..][..k - 1]), Left(items[k..], used[k..]));
    }
  }

  lemma TailOfPrefix<T>(s: seq<T>, k: nat)
    requires 0 < k <= |s|
    ensures s[..k][1..] == s[1..][..k - 1] && s[1..][k - 1..] == s[k..]
  {
  }

  lemma {:induction false} LeftOfUnused(items: seq<string>, used: seq<bool>)
    requires |items| == |used| && forall i :: 0 <= i < |used| ==> !used[i]
    ensures Left(items, used) == items
  {
    if items != [] {
      LeftOfUnused(items[1..], used[1..]);
    }
  }

  lemma LeftOfOne(items: seq<string>, used: seq<bool>, i: nat)
    requires |items| == |used| && i < |items|
    ensures Left(items, used) ==
            Left(items[..i], used[..i]) + (if used[i] then [] else [items[i]]) + Left(items[i + 1..], used[i + 1..])
  {
    hide Left;
    LeftAppend(items, used, i);
    LeftHead(items[i..], used[i..]);
    assert items[i..][1..] == items[i + 1..] && used[i..][1..] == used[i + 1..];
    Regroup(Left(items[..i], used[..i]), if used[i] then [] else [items[i]], Left(items[i + 1..], used[i + 1..]));
  }

  lemma Regroup(a: seq<string>, b: seq<string>, c: seq<string>)
    ensures a + (b + c) == a + b + c
  {
  }

  lemma LeftHead(items: seq<string>, used: seq<bool>)
    requires |items| == |used| && items != []
    ensures Left(items, used) == (if used[0] then [] else [items[0]]) + Left(items[1..], used[1..])
  {
  }

  lemma MarkOne(items: seq<string>, used: seq<bool>, i: nat)
    requires |items| == |used| && i < |items| && !used[i]
    ensures var before := |Left(items[..i], used[..i])|;
            && before < |Left(items, used)| && Left(items, used)[before] == items[i]
            && Left(items, used[i := true]) == Without(Left(items, used), before)
  {
    LeftOfOne(items, used, i);
    LeftOfOne(items, used[i := true], i);
    assert used[i := true][..i] == used[..i] && used[i := true][i + 1..] == used[i + 1..];
  }

  /** The items in the grid, row by row. */
  function ItemsOf(slots: seq<Option<string>>): seq<string> {
    if slots == [] then []
    else ItemsOf(slots[..|slots| - 1]) +
         if slots[|slots| - 1].Some? then [slots[|slots| - 1].value] else []
  }

  function Flat(grid: Grid): seq<Option<string>> {
    if grid == [] then [] else Flat(grid[..|grid| - 1]) + grid[|grid| - 1]
  }

  /** How many items come before a cell, row by row and within a row from the left. */
  function Before(grid: Grid, r: nat, c: nat): nat
    requires r < |grid| && c <= |grid[r]|
  {
    |ItemsOf(Flat(grid[..r]))| + |ItemsOf(grid[r][..c])|
  }

  /** READING ORDER.  The items are taken from the grid row by row and from left to right, each exactly once: an occupied
      cell adds its item behind those before it, an empty one adds none, and so does the end of a row. */
  lemma ItemsInReadingOrder(grid: Grid, r: nat, c: nat)
    requires r < |grid| && c < |grid[r]|
    ensures var items := ItemsOf(Flat(grid));
            && Before(grid, r, c) <= |items|
            && (grid[r][c].Some? ==>
                  && Before(grid, r, c) < |items| && items[Before(grid, r, c)] == grid[r][c].value
                  && Before(grid, r, c + 1) == Before(grid, r, c) + 1)
            && (grid[r][c].None? ==> Before(grid, r, c + 1) == Before(grid, r, c))
            && (r + 1 < |grid| ==> Before(grid, r + 1, 0) == Before(grid, r, |grid[r]|))
            && (r + 1 == |grid| ==> |items| == Before(grid, r, |grid[r]|))
            && (r == 0 ==> Before(grid, r, 0) == 0)
  {
    var row := grid[r];
    RowAmongItems(grid, r);
    CellAmongItems(row, c);
    RowEnds(grid, r);
    hide ItemsOf, Flat;
    var before, cell := ItemsOf(Flat(grid[..r])), if row[c].Some? then [row[c].value] else [];
    Middle(before, ItemsOf(row[..c]), cell, ItemsOf(row[c + 1..]), ItemsOf(Flat(grid[r + 1..])));
  }

  lemma Middle(a: seq<string>, b: seq<string>, cell: seq<string>, c: seq<string>, d: seq<string>)
    requires |cell| <= 1
    ensures cell != [] ==> (a + (b + cell + c) + d)[|a| + |b|] == cell[0]
    ensures |a + (b + cell + c) + d| == |a| + |b| + |cell| + |c| + |d|
  {
  }

  lemma RowAmongItems(grid: Grid, r: nat)
    requires r < |grid|
    ensures ItemsOf(Flat(grid)) == ItemsOf(Flat(grid[..r])) + ItemsOf(grid[r]) + ItemsOf(Flat(grid[r + 1..]))
    ensures ItemsOf(Flat(grid[..r + 1])) == ItemsOf(Flat(grid[..r])) + ItemsOf(grid[r])
  {
    hide ItemsOf, Flat;
    FlatSplit(grid, r + 1);
    FlatSnoc(grid, r);
    ItemsAppend(Flat(grid[..r]), grid[r]);
    ItemsAppend(Flat(grid[..r]) + grid[r], Flat(grid[r + 1..]));
  }

  lemma CellAmongItems(row: seq<Option<string>>, c: nat)
    requires c < |row|
    ensures ItemsOf(row) ==
            ItemsOf(row[..c]) + (if row[c].Some? then [row[c].value] else []) + ItemsOf(row[c + 1..])
    ensures ItemsOf(row[..c + 1]) == ItemsOf(row[..c]) + if row[c].Some? then [row[c].value] else []
  {
    hide ItemsOf;
    var front, back := row[..c + 1], row[c + 1..];
    Rejoined(row, c + 1);
    ItemsSnoc(row, c);
    ItemsAppend(front, back);
  }

  lemma Rejoined(row: seq<Option<string>>, c: nat)
    requires c <= |row|
    ensures row[..c] + row[c..] == row
  {
  }

  lemma RowEnds(grid: Grid, r: nat)
    requires r < |grid|
    ensures ItemsOf(grid[r][..0]) == [] && ItemsOf(grid[r][..|grid[r]|]) == ItemsOf(grid[r])
    ensures r + 1 < |grid| ==> ItemsOf(grid[r + 1][..0]) == []
    ensures r + 1 == |grid| ==> ItemsOf(Flat(grid[r + 1..])) == []
    ensures r == 0 ==> ItemsOf(Flat(grid[..r])) == []
  {
    assert grid[r][..|grid[r]|] == grid[r];
  }

  lemma ItemsSnoc(slots: seq<Option<string>>, i: nat)
    requires i < |slots|
    ensures ItemsOf(slots[..i + 1]) == ItemsOf(slots[..i]) + if slots[i].Some? then [slots[i].value] else []
  {
    assert slots[..i + 1][..i] == slots[..i];
  }

  lemma {:induction false} ItemsAppend(a: seq<Option<string>>, b: seq<Option<string>>)
    ensures ItemsOf(a + b) == ItemsOf(a) + ItemsOf(b)
  {
    if b == [] {
      assert a + b == a;
    } else {
      ItemsAppend(a, b[..|b| - 1]);
      assert (a + b)[..|a + b| - 1] == a + b[..|b| - 1];
    }
  }

  lemma FlatSnoc(grid: Grid, r: nat)
    requires r < |grid|
    ensures Flat(grid[..r + 1]) == Flat(grid[..r]) + grid[r]
  {
    assert grid[..r + 1][..r] == grid[..r];
  }

  lemma {:induction false} FlatSplit(grid: Grid, r: nat)
    requires r <= |grid|
    ensures Flat(grid) == Flat(grid[..r]) + Flat(grid[r..])
  {
    if r == |grid| {
      assert grid[..r] == grid && grid[r..] == [];
    } else {
      var front := grid[..|grid| - 1];
      FlatSplit(front, r);
      assert front[..r] == grid[..r] && grid[r..][..|grid[r..]| - 1] == front[r..];
    }
  }

  predicate Matches(reg: Registry, ingredients: seq<string>, grid: Grid) {
    var items := ItemsOf(Flat(grid));
    |items| == |ingredients| && Greedy(reg, ingredients, items)
  }

  /** A match hands each item in the grid to one ingredient that accepts it, and leaves neither over. */
  lemma GridMatchIsSound(reg: Registry, ingredients: seq<string>, grid: Grid)
    requires Matches(reg, ingredients, grid)
    ensures Assignable(reg, ingredients, ItemsOf(Flat(grid)))
  {
    GreedyIsSound(reg, ingredients, ItemsOf(Flat(grid)));
  }

  method CollectItems(grid: Grid) returns (items: seq<string>)
    ensures items == ItemsOf(Flat(grid))
  {
    var slots: seq<Option<string>> := [];
    for r := 0 to |grid|
      invariant slots == Flat(grid[..r])
    {
      assert grid[..r + 1][..r] == grid[..r];
      slots := slots + grid[r];
    }
    assert grid[..|grid|] == grid;
    items := [];
    for i := 0 to |slots|
      invariant items == ItemsOf(slots[..i])
    {
      assert slots[..i + 1][..i] == slots[..i];
      if slots[i].Some? {
        items := items + [slots[i].value];
      }
    }
    assert slots[..|slots|] == slots;
  }

  /** `matches_crafting_shapeless`: marks items as used ingredient by ingredient. */
  method MatchesCraftingShapeless(reg: Registry, ingredients: seq<string>, grid: Grid) returns (r: bool)
    ensures r == Matches(reg, ingredients, grid)
  {
    var items := CollectItems(grid);
    if |items| != |ingredients| {
      return false;
    }
    var used := new bool[|items|](_ => false);
    LeftOfUnused(items, used[..]);
    for n := 0 to |ingredients|
      invariant Greedy(reg, ingredients, items) == Greedy(reg, ingredients[n..], Left(items, used[..]))
    {
      assert ingredients[n..][0] == ingredients[n] && ingredients[n..][1..] == ingredients[n + 1..];
      var found := TakeFirst(reg, ingredients[n], items, used);
      if !found {
        return false;
      }
    }
    r := true;
  }

  /** Marks the first unused item the ingredient accepts. */
  method TakeFirst(reg: Registry, ingredient: string, items: seq<string>, used: array<bool>) returns (found: bool)
    requires used.Length == |items|
    modifies used
    ensures var left := Left(items, old(used[..]));
            var p := FirstAccepted(reg, ingredient, left);
            && found == (p < |left|)
            && (found ==> Left(items, used[..]) == Without(left, p))
  {
    ghost var marks := used[..];
    ghost var left := Left(items, marks);
    for i := 0 to |items|
      invariant used[..] == marks
      invariant forall k :: 0 <= k < |Left(items[..i], marks[..i])| ==>
        !Allows(reg, ingredient, Left(items[..i], marks[..i])[k])
    {
      NextLeft(items, marks, i);
      if !used[i] {
        if Allows(reg, ingredient, items[i]) {
          LeftAppend(items, marks, i);
          MarkOne(items, marks, i);
          used[i] := true;
          assert used[..] == marks[i := true];
          return true;
        }
      }
    }
    assert items[..|items|] == items && marks[..|items|] == marks;
    found := false;
  }

  lemma NextLeft(items: seq<string>, used: seq<bool>, i: nat)
    requires |items| == |used| && i < |items|
    ensures Left(items[..i + 1], used[..i + 1]) ==
            Left(items[..i], used[..i]) + if used[i] then [] else [items[i]]
  {
    LeftAppend(items[..i + 1], used[..i + 1], i);
    assert items[..i + 1][..i] == items[..i] && used[..i + 1][..i] == used[..i];
    assert items[..i + 1][i..] == [items[i]] && used[..i + 1][i..] == [used[i]];
    assert [items[i]][1..] == [] && [used[i]][1..] == [];
  }
}
