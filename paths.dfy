/**
 * Resolution of a "Root/..." path to a category, as `move` does it before reassigning
 * anything, and how resolution relates to the breadcrumb of a category.
 */
module Paths {
  import opened Wrappers
  import opened Ints
  import opened Text
  import opened Tree

  /** What resolving a target path gives. */
  datatype Resolution =
    | Invalid                      // not "Root" and not starting with "Root/"
    | NotFound(path: string)       // a segment matched no child; carries the path as checked
    | Found(target: Option<int>)   // None is the root itself

  const ROOT := "Root"
  const ROOT_SLASH := "Root/"

  /** Category `k` is named `name` and sits directly under `parent`. */
  predicate IsChildNamed(cats: Categories, k: int, name: string, parent: Option<int>) {
    k in cats && cats[k].name == name && cats[k].parent == parent
  }

  /**
   * The lookup of a category by name and parent id, taking the first match: the matching row
   * with the smallest id (SQLite's rowid order), or None when no row matches.
   */
  function FirstChild(cats: Categories, name: string, parent: Option<int>): (r: Option<int>)
    ensures r.Some? ==> IsChildNamed(cats, r.value, name, parent)
    ensures r.Some? ==> forall k :: IsChildNamed(cats, k, name, parent) ==> r.value <= k
    ensures r.None? ==> forall k :: !IsChildNamed(cats, k, name, parent)
  {
    var matches := set k | k in cats && IsChildNamed(cats, k, name, parent);
    assert forall k :: IsChildNamed(cats, k, name, parent) ==> k in matches;
    if matches == {} then None else Some(MinOf(matches))
  }

  /**
   * The segment loop: match each segment against the children of the category matched
   * so far, starting under `parent`; None as soon as one segment matches nothing.
   */
  ghost function Descend(cats: Categories, parts: seq<string>, parent: Option<int>): Option<int>
    requires |parts| >= 1
    decreases |parts|
  {
    match FirstChild(cats, parts[0], parent)
    case None => None
    case Some(k) => if |parts| == 1 then Some(k) else Descend(cats, parts[1..], Some(k))
  }

  /** The path guard and resolver at the head of `move`. */
  ghost function Resolve(cats: Categories, path: string): Resolution {
    var p := if path == ROOT then ROOT_SLASH else path;
    if !StartsWith(p, ROOT_SLASH) then Invalid
    else if p == ROOT_SLASH then Found(None)
    else
      SplitAfterRoot(p);
      match Descend(cats, Split(p)[1..], None)
      case None => NotFound(p)
      case Some(k) => Found(Some(k))
  }

  /** A path starting "Root/" splits into "Root" followed by the pieces of the rest. */
  lemma SplitAfterRoot(p: string)
    requires StartsWith(p, ROOT_SLASH)
    ensures Split(p) == [ROOT] + Split(p[|ROOT_SLASH|..])
  {
    assert p == ROOT + [SEP] + p[|ROOT_SLASH|..];
    SplitAt(ROOT, p[|ROOT_SLASH|..]);
  }

  /**
   * A path that resolves to the root is "Root" or "Root/"; one that is neither fails the
   * guard exactly when it does not start with "Root/".
   */
  lemma ResolveGuard(cats: Categories, path: string)
    ensures Resolve(cats, path).Invalid? <==> path != ROOT && !StartsWith(path, ROOT_SLASH)
    ensures Resolve(cats, path) == Found(None) <==> path == ROOT || path == ROOT_SLASH
    ensures Resolve(cats, path).NotFound? ==> Resolve(cats, path).path == path
  {
    var p := if path == ROOT then ROOT_SLASH else path;
    if StartsWith(p, ROOT_SLASH) && p != ROOT_SLASH {
      SplitAfterRoot(p);
    }
  }

  /** Segments matched from `parent` down name the ancestors below `parent`. */
  lemma {:induction false} DescendSound(cats: Categories, parts: seq<string>, parent: Option<int>, t: int)
    requires Acyclic(cats) && |parts| >= 1
    requires parent.None? || parent.value in cats
    requires Descend(cats, parts, parent) == Some(t)
    ensures t in cats
    ensures Names(cats, Line(cats, Some(t))) == Names(cats, Line(cats, parent)) + parts
    decreases |parts|
  {
    var k := FirstChild(cats, parts[0], parent).value;
    ParentStep(cats, k);
    NamesConcat(cats, Line(cats, parent), [k]);
    if |parts| == 1 {
      assert t == k;
    } else {
      DescendSound(cats, parts[1..], Some(k), t);
      assert parts == [parts[0]] + parts[1..];
    }
  }

  /**
   * Resolution is sound: a path that resolves to a category is exactly that
   * category's breadcrumb.
   */
  lemma ResolveSound(cats: Categories, path: string, t: int)
    requires Acyclic(cats)
    requires Resolve(cats, path) == Found(Some(t))
    ensures t in cats && PathOf(cats, Some(t)) == path
  {
    var p := if path == ROOT then ROOT_SLASH else path;
    SplitAfterRoot(p);
    var rest := p[|ROOT_SLASH|..];
    assert Split(p)[1..] == Split(rest);
    DescendSound(cats, Split(rest), None, t);
    var names := Names(cats, Line(cats, Some(t)));
    assert names == Split(rest);
    SelfInLine(cats, t);
    JoinSplit(rest);
    assert p == ROOT_SLASH + rest;
  }

  /** No category row refers to a parent that does not exist. */
  ghost predicate ParentsExist(cats: Categories) {
    forall k :: k in cats && cats[k].parent.Some? ==> cats[k].parent.value in cats
  }

  lemma ParentExists(cats: Categories, k: int)
    requires ParentsExist(cats) && k in cats
    ensures cats[k].parent.None? || cats[k].parent.value in cats
  {
  }

  /** No two categories under the same parent share a name. */
  ghost predicate SiblingNamesUnique(cats: Categories) {
    forall j, k :: j in cats && k in cats && cats[j].parent == cats[k].parent && cats[j].name == cats[k].name ==> j == k
  }

  /** Every category name is non-empty and free of the path separator. */
  ghost predicate PlainNames(cats: Categories) {
    forall k :: k in cats ==> cats[k].name != "" && SEP !in cats[k].name
  }

  lemma PlainName(cats: Categories, k: int)
    requires PlainNames(cats) && k in cats
    ensures cats[k].name != "" && SEP !in cats[k].name
  {
  }

  /** With unique sibling names, the one matching child is the one found. */
  lemma FirstChildUnique(cats: Categories, k: int)
    requires SiblingNamesUnique(cats) && k in cats
    ensures FirstChild(cats, cats[k].name, cats[k].parent) == Some(k)
  {
    var r := FirstChild(cats, cats[k].name, cats[k].parent);
    assert IsChildNamed(cats, k, cats[k].name, cats[k].parent);
  }

  /** Walking down the names of `c`'s ancestors from position `j` ends at `c`. */
  lemma {:induction false} DescendLine(cats: Categories, c: int, j: nat)
    requires Acyclic(cats) && ParentsExist(cats) && SiblingNamesUnique(cats) && c in cats
    requires j < |Line(cats, Some(c))|
    ensures var ids := Line(cats, Some(c));
      Descend(cats, Names(cats, ids)[j..], if j == 0 then None else Some(ids[j - 1])) == Some(c)
    decreases |Line(cats, Some(c))| - j
  {
    var ids := Line(cats, Some(c));
    var names := Names(cats, ids);
    var parent := if j == 0 then None else Some(ids[j - 1]);
    assert IsTop(cats, ids[0]);
    assert cats[ids[j]].parent == parent;
    FirstChildUnique(cats, ids[j]);
    assert names[j..][0] == cats[ids[j]].name;
    if j < |ids| - 1 {
      DescendLine(cats, c, j + 1);
      assert names[j..][1..] == names[j + 1..];
    }
  }

  /**
   * The round trip the explorer relies on: feeding a category's breadcrumb back to the
   * resolver finds that category (the root for None), provided parents exist, sibling
   * names are unique, and names are non-empty and contain no "/".
   */
  lemma ResolveBreadcrumb(cats: Categories, c: Option<int>)
    requires Acyclic(cats) && ParentsExist(cats) && SiblingNamesUnique(cats) && PlainNames(cats)
    requires c.None? || c.value in cats
    ensures Resolve(cats, PathOf(cats, c)) == Found(c)
  {
    if c.Some? {
      var ids := Line(cats, c);
      var names := Names(cats, ids);
      SelfInLine(cats, c.value);
      forall i | 0 <= i < |names| ensures SEP !in names[i] {
        assert ids[i] in cats && names[i] == cats[ids[i]].name;
        PlainName(cats, ids[i]);
      }
      var joined := Join(names, [SEP]);
      var p := ROOT_SLASH + joined;
      assert PathOf(cats, c) == p;
      JoinLength(names, [SEP]);
      assert p != ROOT_SLASH;
      assert p[|ROOT_SLASH|..] == joined;
      SplitAfterRoot(p);
      SplitJoin(names);
      DescendLine(cats, c.value, 0);
      assert names[0..] == names;
    }
  }
}
