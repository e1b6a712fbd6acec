/**
 * What the handlers do to the shape of the category table: adding a category under an
 * existing parent keeps it a forest, a cascading delete keeps it a forest and strands no
 * item, and a move, which only refuses a category as its own target, can close a cycle.
 */
module Invariants {
  import opened Wrappers
  import opened Text
  import opened Tree
  import opened Subtrees
  import opened Paths
  import opened Catalogue

  /** `rest` keeps some rows of `cats` unchanged and adds none. */
  ghost predicate SubTable(rest: Categories, cats: Categories) {
    forall k :: k in rest ==> k in cats && rest[k] == cats[k]
  }

  lemma SubTableKey(rest: Categories, cats: Categories, k: int)
    requires SubTable(rest, cats)
    ensures k in rest ==> k in cats && rest[k] == cats[k]
  {
  }

  /** A row whose id nobody references does not change any existing walk. */
  lemma {:induction false} LineageAddLeaf(cats: Categories, id: int, cat: Category, c: Option<int>, fuel: nat)
    requires id !in cats && ParentsExist(cats)
    requires c.None? || c.value in cats
    ensures Lineage(cats[id := cat], c, fuel) == Lineage(cats, c, fuel)
    decreases fuel
  {
    if c.Some? && fuel > 0 {
      assert cats[id := cat][c.value] == cats[c.value];
      ParentExists(cats, c.value);
      LineageAddLeaf(cats, id, cat, cats[c.value].parent, fuel - 1);
    }
  }

  /** An existing category's walk is unchanged by the new row. */
  lemma OldWalkInGrown(cats: Categories, id: int, cat: Category, k: int)
    requires Acyclic(cats) && ParentsExist(cats) && id !in cats && k in cats
    ensures Lineage(cats[id := cat], Some(k), |cats| + 1) == Lineage(cats, Some(k), |cats|)
  {
    WalkFinishes(cats, k);
    LineageMoreFuel(cats, Some(k), |cats|);
    LineageAddLeaf(cats, id, cat, Some(k), |cats| + 1);
  }

  /** The new row's walk is its parent's walk followed by the new id. */
  lemma NewWalkInGrown(cats: Categories, id: int, cat: Category)
    requires Acyclic(cats) && ParentsExist(cats) && id !in cats
    requires cat.parent.None? || cat.parent.value in cats
    ensures Lineage(cats[id := cat], Some(id), |cats| + 1) == Some(Line(cats, cat.parent) + [id])
  {
    if cat.parent.Some? {
      WalkFinishes(cats, cat.parent.value);
    }
    LineageAddLeaf(cats, id, cat, cat.parent, |cats|);
    assert cats[id := cat][id] == cat;
  }

  /** `new_category` under no parent or an existing one keeps the table a forest. */
  lemma NewCategoryKeepsTree(cats: Categories, name: string, parent: Option<int>)
    requires Acyclic(cats) && ParentsExist(cats)
    requires parent.None? || parent.value in cats
    ensures var id := NextCategoryId(cats);
      var grown := cats[id := Category(name, parent)];
      Acyclic(grown) && ParentsExist(grown) && Line(grown, Some(id)) == Line(cats, parent) + [id]
  {
    var id := NextCategoryId(cats);
    var cat := Category(name, parent);
    var grown := cats[id := cat];
    assert |grown| == |cats| + 1;
    forall k | k in grown ensures Lineage(grown, Some(k), |grown|).Some? {
      if k == id {
        NewWalkInGrown(cats, id, cat);
      } else {
        OldWalkInGrown(cats, id, cat, k);
      }
    }
    assert Acyclic(grown);
    forall k | k in grown && grown[k].parent.Some? ensures grown[k].parent.value in grown {
      if k != id {
        assert cats[k].parent.None? || cats[k].parent.value in cats;
      }
    }
    NewWalkInGrown(cats, id, cat);
  }

  /** A walk that stays inside `rest` is the same walk in `rest`. */
  lemma {:induction false} LineageSub(cats: Categories, rest: Categories, c: Option<int>, fuel: nat)
    requires SubTable(rest, cats)
    requires Lineage(cats, c, fuel).Some?
    requires forall i :: 0 <= i < |Lineage(cats, c, fuel).value| ==> Lineage(cats, c, fuel).value[i] in rest
    ensures Lineage(rest, c, fuel) == Lineage(cats, c, fuel)
    decreases fuel
  {
    if c.Some? {
      SubTableKey(rest, cats, c.value);
    }
    if c.Some? && c.value in cats {
      var s := Lineage(cats, c, fuel).value;
      assert s[|s| - 1] == c.value;
      assert c.value in rest && rest[c.value] == cats[c.value] && fuel > 0;
      var up := Lineage(cats, cats[c.value].parent, fuel - 1).value;
      assert s == up + [c.value];
      assert forall i :: 0 <= i < |up| ==> up[i] == s[i];
      LineageSub(cats, rest, cats[c.value].parent, fuel - 1);
      assert Lineage(rest, rest[c.value].parent, fuel - 1) == Some(up);
      assert Lineage(rest, c, fuel) == Some(up + [c.value]);
    }
  }

  /**
   * The cascading delete of `c`, allowed only when its subtree holds no item, leaves a
   * forest without dangling parents, and every item that had a category still has it.
   */
  lemma DeleteKeepsTree(cats: Categories, items: Items, c: int)
    requires Acyclic(cats) && ParentsExist(cats) && c in cats
    requires !SubtreeHasItems(cats, items, c)
    ensures var rest := cats - Subtree(cats, c);
      c !in rest && Acyclic(rest) && ParentsExist(rest) &&
      forall u :: u in items && items[u].category.Some? && items[u].category.value in cats ==>
        items[u].category.value in rest
  {
    var doomed := Subtree(cats, c);
    var rest := cats - doomed;
    SelfInLine(cats, c);
    forall k | k in rest && rest[k].parent.Some? ensures rest[k].parent.value in rest {
      ParentStep(cats, k);
      assert cats[k].parent.None? || cats[k].parent.value in cats;
    }
    forall u | u in items && items[u].category.Some? && items[u].category.value in cats
      ensures items[u].category.value in rest
    {
      assert !ItemWithin(cats, items, u, c);
    }
    assert rest.Keys <= cats.Keys;
    forall k | k in rest ensures Lineage(rest, Some(k), |rest|).Some? {
      WalkFinishes(cats, k);
      var line := Line(cats, Some(k));
      forall i | 0 <= i < |line| ensures line[i] in rest {
        AncestorLine(cats, k, line[i]);
      }
      LineageDistinct(cats, Some(k), |cats|);
      DistinctBound(line, rest.Keys);
      LineageLessFuel(cats, Some(k), |cats|, |rest|);
      LineageSub(cats, rest, Some(k), |rest|);
    }
  }

  /** Two categories: A at the top and B under A. */
  function TwoLevels(): Categories {
    map[1 := Category("A", None), 2 := Category("B", Some(1))]
  }

  lemma TwoLevelsAcyclic()
    ensures Acyclic(TwoLevels())
  {
    var cats := TwoLevels();
    assert 1 in cats && 2 in cats && cats[1].parent == None && cats[2].parent == Some(1);
    assert Lineage(cats, cats[1].parent, 0) == Some([]) && Lineage(cats, cats[1].parent, 1) == Some([]);
    assert [] + [1] == [1];
    assert Lineage(cats, Some(1), 1) == Some([1]);
    assert Lineage(cats, Some(1), 2) == Some([1]);
    assert Lineage(cats, cats[2].parent, 1) == Some([1]);
    assert [1] + [2] == [1, 2];
    assert Lineage(cats, Some(2), 2) == Some([1, 2]);
  }

  lemma SplitSample()
    ensures Split("Root/A/B") == ["Root", "A", "B"]
  {
    assert "Root/A/B" == "Root" + [SEP] + ("A" + [SEP] + "B");
    SplitAt("Root", "A" + [SEP] + "B");
    SplitAt("A", "B");
    SplitPlain("B");
  }

  lemma DescendSample()
    ensures Descend(TwoLevels(), ["A", "B"], None) == Some(2)
  {
    var cats := TwoLevels();
    assert IsChildNamed(cats, 1, "A", None);
    assert FirstChild(cats, "A", None) == Some(1);
    assert IsChildNamed(cats, 2, "B", Some(1));
    assert FirstChild(cats, "B", Some(1)) == Some(2);
    assert ["A", "B"][1..] == ["B"];
  }

  lemma TwoLevelsResolve()
    ensures Resolve(TwoLevels(), "Root/A/B") == Found(Some(2))
  {
    var path := "Root/A/B";
    assert StartsWith(path, ROOT_SLASH) && path != ROOT && path != ROOT_SLASH;
    SplitSample();
    assert Split(path)[1..] == ["A", "B"];
    DescendSample();
  }

  /**
   * `move` lets a category be moved under its own child: with A at the top and B under A,
   * the path "Root/A/B" resolves to B, and giving A the parent B leaves a cycle.
   */
  lemma MoveCanCreateCycle()
    ensures Acyclic(TwoLevels()) && Resolve(TwoLevels(), "Root/A/B") == Found(Some(2))
    ensures !Acyclic(TwoLevels()[1 := TwoLevels()[1].(parent := Some(2))])
  {
    TwoLevelsAcyclic();
    TwoLevelsResolve();
    var looped := TwoLevels()[1 := TwoLevels()[1].(parent := Some(2))];
    assert |looped| == 2;
    assert looped[1].parent == Some(2) && looped[2].parent == Some(1);
    assert Lineage(looped, Some(1), 0) == None;
    assert Lineage(looped, Some(2), 1) == None;
    assert Lineage(looped, Some(1), 2) == None;
  }

  /**
   * A cycle elsewhere does not stop a breadcrumb: with C at the top and X, Y each other's
   * parent, the table is not acyclic, yet C's walk ends and its breadcrumb is "Root/C".
   */
  lemma BreadcrumbBesideCycle()
    ensures var cats := map[1 := Category("C", None), 2 := Category("X", Some(3)), 3 := Category("Y", Some(2))];
      !Acyclic(cats) && WalkEnds(cats, Some(1)) && Breadcrumb(cats, Some(1)) == "Root/C"
  {
    var cats := map[1 := Category("C", None), 2 := Category("X", Some(3)), 3 := Category("Y", Some(2))];
    assert |cats| == 3;
    assert cats[1].parent == None && cats[2].parent == Some(3) && cats[3].parent == Some(2);
    assert Lineage(cats, Some(3), 0) == None;
    assert Lineage(cats, Some(2), 1) == None;
    assert Lineage(cats, Some(3), 2) == None;
    assert Lineage(cats, Some(2), 3) == None;
    assert Lineage(cats, cats[1].parent, 2) == Some([]);
    assert [] + [1] == [1];
    assert Lineage(cats, Some(1), 3) == Some([1]);
    assert Names(cats, [1]) == ["C"];
  }
}
