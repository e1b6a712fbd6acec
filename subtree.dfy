/**
 * The subtree below a category: which categories a cascading delete removes, and the
 * recursive test `category_has_items` that guards it.
 */
module Subtrees {
  import opened Wrappers
  import opened Tree

  /** `c` and all its descendant categories. */
  ghost function Subtree(cats: Categories, c: int): set<int>
    requires Acyclic(cats)
  {
    set d | d in cats && c in Line(cats, Some(d))
  }

  /** Each child of `c` is one level deeper than `c`. */
  lemma ChildrenDeeper(cats: Categories, c: int)
    requires Acyclic(cats) && c in cats
    ensures forall k :: k in cats && cats[k].parent == Some(c) ==>
      |Line(cats, Some(k))| == |Line(cats, Some(c))| + 1
  {
    forall k | k in cats && cats[k].parent == Some(c)
      ensures |Line(cats, Some(k))| == |Line(cats, Some(c))| + 1
    {
      ParentStep(cats, k);
    }
  }

  /**
   * `category_has_items`: the category holds an item itself, or some child category's
   * subtree does.
   */
  function HasItems(cats: Categories, items: Items, c: int): bool
    requires Acyclic(cats) && c in cats
    decreases |cats| - |Line(cats, Some(c))|
  {
    (exists u :: u in items && items[u].category == Some(c)) ||
    (ChildrenDeeper(cats, c);
     exists k :: k in cats && cats[k].parent == Some(c) && HasItems(cats, items, k))
  }

  /** Item `u` is filed in category `c` or below it. */
  ghost predicate ItemWithin(cats: Categories, items: Items, u: string, c: int)
    requires Acyclic(cats)
  {
    u in items && c in Line(cats, items[u].category)
  }

  /** Some item is filed in `c` or in one of its descendants. */
  ghost predicate SubtreeHasItems(cats: Categories, items: Items, c: int)
    requires Acyclic(cats)
  {
    exists u :: ItemWithin(cats, items, u, c)
  }

  /** The item witnessing `HasItems` is filed somewhere in the subtree. */
  lemma {:induction false} HasItemsWitness(cats: Categories, items: Items, c: int) returns (u: string)
    requires Acyclic(cats) && c in cats && HasItems(cats, items, c)
    ensures ItemWithin(cats, items, u, c)
    decreases |cats| - |Line(cats, Some(c))|
  {
    if exists v :: v in items && items[v].category == Some(c) {
      u :| u in items && items[u].category == Some(c);
      SelfInLine(cats, c);
    } else {
      ChildrenDeeper(cats, c);
      var k :| k in cats && cats[k].parent == Some(c) && HasItems(cats, items, k);
      u := HasItemsWitness(cats, items, k);
      var d := items[u].category.value;
      AncestorLine(cats, d, k);
      ParentStep(cats, k);
      assert c in Line(cats, Some(k));
    }
  }

  /** A subtree holding an item makes every ancestor's subtree hold it too. */
  lemma {:induction false} AncestorsHaveItems(cats: Categories, items: Items, d: int, x: int)
    requires Acyclic(cats) && d in cats && HasItems(cats, items, d)
    requires x in Line(cats, Some(d))
    ensures HasItems(cats, items, x)
    decreases |Line(cats, Some(d))|
  {
    if x != d {
      ParentStep(cats, d);
      var p := cats[d].parent;
      assert x in Line(cats, p);
      assert p.Some? && p.value in cats;
      ChildrenDeeper(cats, p.value);
      assert HasItems(cats, items, p.value);
      AncestorsHaveItems(cats, items, p.value, x);
    }
  }

  /**
   * `category_has_items(c)` is true exactly when `c` or one of its descendant
   * categories holds at least one item.
   */
  lemma HasItemsIff(cats: Categories, items: Items, c: int)
    requires Acyclic(cats) && c in cats
    ensures HasItems(cats, items, c) <==> SubtreeHasItems(cats, items, c)
  {
    if HasItems(cats, items, c) {
      var u := HasItemsWitness(cats, items, c);
    }
    if SubtreeHasItems(cats, items, c) {
      var u :| ItemWithin(cats, items, u, c);
      var d := items[u].category.value;
      assert HasItems(cats, items, d);
      AncestorsHaveItems(cats, items, d, c);
    }
  }

  /** The subtree of a child lies inside its parent's subtree, below the parent. */
  lemma ChildSubtree(cats: Categories, c: int, k: int)
    requires Acyclic(cats) && c in cats && k in cats && cats[k].parent == Some(c)
    ensures Subtree(cats, k) <= Subtree(cats, c) - {c}
  {
    ParentStep(cats, k);
    SelfInLine(cats, c);
    forall d | d in Subtree(cats, k) ensures d in Subtree(cats, c) - {c} {
      AncestorLine(cats, d, k);
      if d == c {
        assert false;
      }
    }
  }

  /** A proper descendant of `c` lies in the subtree of one of `c`'s children. */
  lemma ChildOnWay(cats: Categories, c: int, d: int) returns (k: int)
    requires Acyclic(cats) && d in Subtree(cats, c) && d != c
    ensures k in cats && cats[k].parent == Some(c) && d in Subtree(cats, k)
  {
    var ids := Line(cats, Some(d));
    var i :| 0 <= i < |ids| && ids[i] == c;
    assert i < |ids| - 1;
    k := ids[i + 1];
    assert k in ids;
  }
}
