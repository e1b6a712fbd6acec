/**
 * The catalogue's two tables as maps, and the tree they describe: the walk from a
 * category up its parent chain, the breadcrumb built from that walk, the subtree below
 * a category and the recursive "does this subtree hold an item" test.
 */
module Tree {
  import opened Wrappers
  import opened Text

  /** A row of the `category` table; `parent == None` is a top-level category. */
  datatype Category = Category(name: string, parent: Option<int>)

  /** A row of the `item` table; `category == None` is an item at the root. */
  datatype Item = Item(name: string, count: int, tags: string, timestamp: int, category: Option<int>)

  type Categories = map<int, Category>
  type Items = map<string, Item>

  /**
   * A category that starts a parent chain: its parent is null, or names no existing row
   * (then SQLAlchemy's `category.parent` is None as well).
   */
  ghost predicate IsTop(cats: Categories, k: int) {
    k in cats && (cats[k].parent.None? || cats[k].parent.value !in cats)
  }

  /**
   * The categories visited by stepping from `c` to its parent until none is left, listed root
   * first and `c` last; empty when `c` is None or not a row. None when the walk is
   * still going after `fuel` steps (a parent cycle).
   */
  ghost function Lineage(cats: Categories, c: Option<int>, fuel: nat): (r: Option<seq<int>>)
    ensures r.Some? ==> |r.value| <= fuel
    ensures r.Some? ==> forall i :: 0 <= i < |r.value| ==> r.value[i] in cats
    ensures r.Some? ==> (r.value != [] <==> c.Some? && c.value in cats)
    ensures r.Some? && r.value != [] ==> r.value[|r.value| - 1] == c.value && IsTop(cats, r.value[0])
    ensures r.Some? ==> forall i :: 0 < i < |r.value| ==> cats[r.value[i]].parent == Some(r.value[i - 1])
    decreases fuel
  {
    if c.None? || c.value !in cats then Some([])
    else if fuel == 0 then None
    else
      match Lineage(cats, cats[c.value].parent, fuel - 1)
      case None => None
      case Some(up) => Some(up + [c.value])
  }

  /** Every walk up the parent chain ends: no category is its own ancestor. */
  ghost predicate Acyclic(cats: Categories) {
    forall k {:trigger Lineage(cats, Some(k), |cats|)} :: k in cats ==> Lineage(cats, Some(k), |cats|).Some?
  }

  /** The ancestors of `c`, root first and `c` last, in an acyclic table. */
  ghost function Line(cats: Categories, c: Option<int>): (ids: seq<int>)
    requires Acyclic(cats)
    ensures |ids| <= |cats|
    ensures forall i :: 0 <= i < |ids| ==> ids[i] in cats
  {
    if c.Some? && c.value in cats then
      WalkFinishes(cats, c.value);
      Lineage(cats, Some(c.value), |cats|).value
    else []
  }

  lemma WalkFinishes(cats: Categories, k: int)
    requires Acyclic(cats) && k in cats
    ensures Lineage(cats, Some(k), |cats|).Some?
  {
  }

  /** The names of the given categories, in the same order. */
  function Names(cats: Categories, ids: seq<int>): (names: seq<string>)
    requires forall i :: 0 <= i < |ids| ==> ids[i] in cats
  {
    seq(|ids|, i requires 0 <= i < |ids| => cats[ids[i]].name)
  }

  /** How `build_breadcrumb` formats the ancestor names. */
  function BreadcrumbText(names: seq<string>): string {
    if names == [] then "Root" else "Root/" + Join(names, [SEP])
  }

  /** How `build_breadcrumb_disp` formats the ancestor names. */
  function DisplayText(names: seq<string>): string {
    if names == [] then "Root" else "Root > " + Join(names, " > ")
  }

  /** The path of category `c` (or of the root, for None). */
  ghost function PathOf(cats: Categories, c: Option<int>): string
    requires Acyclic(cats)
  {
    BreadcrumbText(Names(cats, Line(cats, c)))
  }

  lemma NamesConcat(cats: Categories, a: seq<int>, b: seq<int>)
    requires forall i :: 0 <= i < |a| ==> a[i] in cats
    requires forall i :: 0 <= i < |b| ==> b[i] in cats
    ensures Names(cats, a + b) == Names(cats, a) + Names(cats, b)
  {
    var ab := a + b;
    assert forall i :: 0 <= i < |ab| ==> ab[i] in cats;
  }

  /** Extra fuel does not change a walk that already finished. */
  lemma {:induction false} LineageMoreFuel(cats: Categories, c: Option<int>, fuel: nat)
    requires Lineage(cats, c, fuel).Some?
    ensures Lineage(cats, c, fuel + 1) == Lineage(cats, c, fuel)
    decreases fuel
  {
    if c.Some? && c.value in cats {
      LineageMoreFuel(cats, cats[c.value].parent, fuel - 1);
    }
  }

  /** One step of the walk: the ancestors of `k` are those of its parent, then `k`. */
  lemma ParentStep(cats: Categories, k: int)
    requires Acyclic(cats) && k in cats
    ensures Line(cats, Some(k)) == Line(cats, cats[k].parent) + [k]
  {
    var p := cats[k].parent;
    assert Lineage(cats, Some(k), |cats|).Some?;
    LineageMoreFuel(cats, p, |cats| - 1);
  }

  /** Every prefix of a line of ancestors is the line of its last member. */
  lemma {:induction false} LinePrefix(cats: Categories, d: int, i: nat)
    requires Acyclic(cats) && d in cats && i < |Line(cats, Some(d))|
    ensures Line(cats, Some(Line(cats, Some(d))[i])) == Line(cats, Some(d))[..i + 1]
    decreases |Line(cats, Some(d))|
  {
    var ids := Line(cats, Some(d));
    ParentStep(cats, d);
    var p := cats[d].parent;
    if i == |ids| - 1 {
      assert ids[..i + 1] == ids;
    } else {
      var up := Line(cats, p);
      assert ids == up + [d];
      assert p.Some? && p.value in cats;
      assert p == Some(p.value);
      LinePrefix(cats, p.value, i);
      assert ids[..i + 1] == up[..i + 1];
    }
  }

  /** An ancestor's own ancestors are ancestors too, and it sits no deeper. */
  lemma AncestorLine(cats: Categories, d: int, x: int)
    requires Acyclic(cats) && d in cats && x in Line(cats, Some(d))
    ensures forall y :: y in Line(cats, Some(x)) ==> y in Line(cats, Some(d))
    ensures |Line(cats, Some(x))| <= |Line(cats, Some(d))|
    ensures x != d ==> |Line(cats, Some(x))| < |Line(cats, Some(d))|
  {
    var ids := Line(cats, Some(d));
    var i :| 0 <= i < |ids| && ids[i] == x;
    LinePrefix(cats, d, i);
  }

  /** A category is the last member of its own line. */
  lemma SelfInLine(cats: Categories, c: int)
    requires Acyclic(cats) && c in cats
    ensures Line(cats, Some(c)) != [] && c in Line(cats, Some(c))
  {
  }
  /** No id occurs twice in `s`. */
  ghost predicate Distinct(s: seq<int>) {
    forall i, j :: 0 <= i < j < |s| ==> s[i] != s[j]
  }

  /** A finished walk finishes with any fuel at least its length. */
  lemma {:induction false} LineageLessFuel(cats: Categories, c: Option<int>, fuel: nat, less: nat)
    requires Lineage(cats, c, fuel).Some?
    requires |Lineage(cats, c, fuel).value| <= less <= fuel
    ensures Lineage(cats, c, less) == Lineage(cats, c, fuel)
    decreases less
  {
    if c.Some? && c.value in cats {
      LineageLessFuel(cats, cats[c.value].parent, fuel - 1, less - 1);
    }
  }

  /** A sequence without repeats inside a set is no longer than the set. */
  lemma {:induction false} DistinctBound(s: seq<int>, ids: set<int>)
    requires Distinct(s)
    requires forall i :: 0 <= i < |s| ==> s[i] in ids
    ensures |s| <= |ids|
  {
    if s != [] {
      var rest := ids - {s[0]};
      forall i | 0 <= i < |s[1..]| ensures s[1..][i] in rest {
        assert s[1..][i] == s[i + 1];
      }
      DistinctBound(s[1..], rest);
    }
  }

  /** A walk without a repeated category: each category is the parent of the next. */
  lemma {:induction false} ChainNoRepeat(cats: Categories, s: seq<int>, i: nat, j: nat)
    requires forall k :: 0 <= k < |s| ==> s[k] in cats
    requires s != [] ==> IsTop(cats, s[0])
    requires forall k :: 0 < k < |s| ==> cats[s[k]].parent == Some(s[k - 1])
    requires i < j < |s|
    ensures s[i] != s[j]
    decreases i
  {
    if i > 0 {
      ChainNoRepeat(cats, s, i - 1, j - 1);
      assert cats[s[i]].parent == Some(s[i - 1]) && cats[s[j]].parent == Some(s[j - 1]);
    } else {
      assert cats[s[j]].parent == Some(s[j - 1]);
    }
  }

  /** A finished walk meets no category twice. */
  lemma LineageDistinct(cats: Categories, c: Option<int>, fuel: nat)
    requires Lineage(cats, c, fuel).Some?
    ensures Distinct(Lineage(cats, c, fuel).value)
  {
    var s := Lineage(cats, c, fuel).value;
    forall i, j | 0 <= i < j < |s| ensures s[i] != s[j] {
      ChainNoRepeat(cats, s, i, j);
    }
  }

  /** Any amount of extra fuel leaves a finished walk unchanged. */
  lemma {:induction false} LineageMoreFuelBy(cats: Categories, c: Option<int>, fuel: nat, more: nat)
    requires Lineage(cats, c, fuel).Some? && fuel <= more
    ensures Lineage(cats, c, more) == Lineage(cats, c, fuel)
    decreases more - fuel
  {
    if fuel < more {
      LineageMoreFuel(cats, c, fuel);
      LineageMoreFuelBy(cats, c, fuel + 1, more);
    }
  }

  /**
   * The loop of `build_breadcrumb` from `c` ends: the walk reaches a category without an
   * existing parent within one step per category.
   */
  ghost predicate WalkEnds(cats: Categories, c: Option<int>) {
    Lineage(cats, c, |cats|).Some?
  }

  /** The categories that loop visits from `c`, root first and `c` last. */
  ghost function Walk(cats: Categories, c: Option<int>): (ids: seq<int>)
    requires WalkEnds(cats, c)
    ensures forall i :: 0 <= i < |ids| ==> ids[i] in cats
  {
    Lineage(cats, c, |cats|).value
  }

  /**
   * A walk that ends with any fuel ends within one step per category, since it meets no
   * category twice; so `WalkEnds` holds exactly when the loop terminates at all.
   */
  lemma FinishedWalkEnds(cats: Categories, c: Option<int>, fuel: nat)
    requires Lineage(cats, c, fuel).Some?
    ensures WalkEnds(cats, c) && Walk(cats, c) == Lineage(cats, c, fuel).value
  {
    if fuel <= |cats| {
      LineageMoreFuelBy(cats, c, fuel, |cats|);
    } else {
      LineageDistinct(cats, c, fuel);
      DistinctBound(Lineage(cats, c, fuel).value, cats.Keys);
      LineageLessFuel(cats, c, fuel, |cats|);
    }
  }

  /** In an acyclic table every walk ends, and it is the line of ancestors. */
  lemma WalkIsLine(cats: Categories, c: Option<int>)
    ensures Acyclic(cats) ==> WalkEnds(cats, c) && Walk(cats, c) == Line(cats, c)
  {
    if Acyclic(cats) && c.Some? && c.value in cats {
      WalkFinishes(cats, c.value);
    }
  }

  /** The breadcrumb `build_breadcrumb` builds for `c` when its walk ends. */
  ghost function Breadcrumb(cats: Categories, c: Option<int>): string
    requires WalkEnds(cats, c)
  {
    BreadcrumbText(Names(cats, Walk(cats, c)))
  }
}
