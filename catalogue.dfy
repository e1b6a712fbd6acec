/**
 * The request handlers of the stock catalogue as methods on one store that holds the
 * category and item tables and the tag list. Each handler applies its whole effect at
 * once, as its single commit does; form fields, the clock and the random digits of a
 * new uid arrive as parameters.
 */
module Catalogue {
  import opened Wrappers
  import opened Ints
  import opened Text
  import opened Tree
  import opened Subtrees
  import opened Paths

  /** The `type` and `id` fields of a request. */
  datatype Ref = CategoryRef(id: int) | ItemRef(uid: string) | OtherType

  /** A JSON reply `{"message": ..., "success": ...}`; `success` is None when the key is absent. */
  datatype Reply = Reply(message: string, success: Option<bool>)

  function Succeeded(message: string): Reply { Reply(message, Some(true)) }
  function Failed(message: string): Reply { Reply(message, Some(false)) }
  function Notice(message: string): Reply { Reply(message, None) }

  /** The reply of `get_path`: the path on success, otherwise a message. */
  datatype PathReply = PathFound(path: string) | PathError(message: string)

  /**
   * The outcome of `new_item`: "Item exists" with the uid already stored, "Created" with the
   * new uid, or a primary-key clash on commit, which stores nothing.
   */
  datatype NewItemReply = Existing(uid: string) | Created(uid: string) | UidTaken(uid: string)

  const UID_LENGTH := 10
  const INVALID_PATH := "Invalid path. Must start with 'Root/'."
  const NOT_FOUND_PREFIX := "Path not found: "

  /** `str(d)` for one decimal digit. */
  function DigitChar(d: int): (ch: char)
    requires 0 <= d <= 9
    ensures '0' <= ch <= '9' && ch as int - '0' as int == d
  {
    ('0' as int + d) as char
  }

  /** `uid` spells the draws as ten decimal digits, one per draw. */
  ghost predicate SpellsDraws(uid: string, draws: seq<int>) {
    |uid| == UID_LENGTH && |draws| == UID_LENGTH &&
    forall i :: 0 <= i < UID_LENGTH ==> '0' <= uid[i] <= '9' && uid[i] as int - '0' as int == draws[i]
  }

  /** `generate_uid`, with the ten `random.randint(0, 9)` draws passed in. */
  method GenerateUid(draws: seq<int>) returns (uid: string)
    requires |draws| == UID_LENGTH && forall i :: 0 <= i < |draws| ==> 0 <= draws[i] <= 9
    ensures |uid| == UID_LENGTH
    ensures forall i :: 0 <= i < UID_LENGTH ==> '0' <= uid[i] <= '9' && uid[i] as int - '0' as int == draws[i]
  {
    uid := "";
    for i := 0 to UID_LENGTH
      invariant |uid| == i
      invariant forall j :: 0 <= j < i ==> '0' <= uid[j] <= '9' && uid[j] as int - '0' as int == draws[j]
    {
      uid := uid + [DigitChar(draws[i])];
    }
  }

  /**
   * The id SQLite gives a new category row: 1 in an empty table, otherwise one more than
   * the largest id in the table.
   */
  function NextCategoryId(cats: Categories): (id: int)
    ensures id !in cats
    ensures forall k :: k in cats ==> k < id
    ensures cats == map[] ==> id == 1
    ensures cats != map[] ==> id - 1 in cats
  {
    if cats.Keys == {} then 1 else MaxOf(cats.Keys) + 1
  }

  /** Item `u` has the given name and category. */
  predicate SameItem(items: Items, u: string, name: string, category: Option<int>) {
    u in items && items[u].name == name && items[u].category == category
  }

  class Store {
    var categories: Categories
    var items: Items
    /** The contents of the tag file. */
    var knownTags: seq<string>

    /** A fresh database and a tag file holding `[]`. */
    constructor ()
      ensures categories == map[] && items == map[] && knownTags == []
    {
      categories := map[];
      items := map[];
      knownTags := [];
    }

    /**
     * The loop shared by `build_breadcrumb` and `build_breadcrumb_disp`: collect names
     * while walking up the parents, then reverse them.
     */
    method AncestorNames(c: Option<int>) returns (names: seq<string>)
      requires WalkEnds(categories, c)
      ensures names == Names(categories, Walk(categories, c))
    {
      var crumbs: seq<string> := [];
      var current := c;
      ghost var fuel: nat := |categories|;
      while current.Some? && current.value in categories
        invariant Lineage(categories, current, fuel).Some?
        invariant Names(categories, Walk(categories, c)) ==
          Names(categories, Lineage(categories, current, fuel).value) + Reverse(crumbs)
        decreases fuel
      {
        var cat := categories[current.value];
        ghost var up := Lineage(categories, cat.parent, fuel - 1).value;
        NamesConcat(categories, up, [current.value]);
        ReverseSnoc(crumbs, cat.name);
        crumbs := crumbs + [cat.name];
        current := cat.parent;
        fuel := fuel - 1;
      }
      names := Reverse(crumbs);
    }

    /**
     * `build_breadcrumb`: "Root" for no category, else "Root/" and the names joined by "/";
     * in an acyclic table this is the path `PathOf` that the resolver reads back.
     */
    method BuildBreadcrumb(c: Option<int>) returns (path: string)
      requires WalkEnds(categories, c)
      ensures path == BreadcrumbText(Names(categories, Walk(categories, c)))
      ensures Acyclic(categories) ==> path == PathOf(categories, c)
    {
      var names := AncestorNames(c);
      WalkIsLine(categories, c);
      path := BreadcrumbText(names);
    }

    /** `build_breadcrumb_disp`: the same names, joined by " > " after "Root > ". */
    method BuildBreadcrumbDisp(c: Option<int>) returns (text: string)
      requires WalkEnds(categories, c)
      ensures text == DisplayText(Names(categories, Walk(categories, c)))
    {
      var names := AncestorNames(c);
      text := DisplayText(names);
    }

    /**
     * `get_path`. An item whose category is null or names no row gets "Root" without any
     * walk; otherwise the walk from the category must end.
     */
    method GetPath(r: Ref) returns (reply: PathReply)
      requires r.CategoryRef? && r.id in categories ==> WalkEnds(categories, Some(r.id))
      requires r.ItemRef? && r.uid in items ==> WalkEnds(categories, items[r.uid].category)
      ensures r.CategoryRef? ==>
        reply == if r.id in categories then PathFound(Breadcrumb(categories, Some(r.id))) else PathError("Category not found.")
      ensures r.ItemRef? ==>
        reply == if r.uid in items then PathFound(Breadcrumb(categories, items[r.uid].category)) else PathError("Item not found.")
      ensures r.ItemRef? && r.uid in items && !(items[r.uid].category.Some? && items[r.uid].category.value in categories) ==>
        reply == PathFound("Root")
      ensures r.OtherType? ==> reply == PathError("Invalid type.")
    {
      match r
      case CategoryRef(id) =>
        if id !in categories {
          return PathError("Category not found.");
        }
        var path := BuildBreadcrumb(Some(id));
        reply := PathFound(path);
      case ItemRef(uid) =>
        if uid !in items {
          return PathError("Item not found.");
        }
        var category := items[uid].category;
        var path := "Root";
        if category.Some? && category.value in categories {
          path := BuildBreadcrumb(category);
        }
        reply := PathFound(path);
      case OtherType =>
        reply := PathError("Invalid type.");
    }

    /** `new_item`, with the uid draws and `int(time.time())` passed in. */
    method NewItem(name: string, categoryId: Option<int>, draws: seq<int>, now: int) returns (reply: NewItemReply)
      requires |draws| == UID_LENGTH && forall i :: 0 <= i < |draws| ==> 0 <= draws[i] <= 9
      modifies this
      ensures categories == old(categories) && knownTags == old(knownTags)
      ensures reply.Existing? <==> exists u :: SameItem(old(items), u, name, categoryId)
      ensures reply.Existing? ==> SameItem(old(items), reply.uid, name, categoryId) && items == old(items)
      ensures !reply.Existing? ==> SpellsDraws(reply.uid, draws)
      ensures !reply.Existing? ==> (reply.Created? <==> reply.uid !in old(items))
      ensures reply.UidTaken? ==> items == old(items)
      ensures reply.Created? ==> items == old(items)[reply.uid := Item(name, 0, "", now, categoryId)]
    {
      if exists u :: u in items && SameItem(items, u, name, categoryId) {
        var u :| u in items && SameItem(items, u, name, categoryId);
        return Existing(u);
      }
      var uid := GenerateUid(draws);
      if uid in items {
        return UidTaken(uid);
      }
      items := items[uid := Item(name, 0, "", now, categoryId)];
      reply := Created(uid);
    }

    /** `new_category`: the parent id is stored as given, existing or not. */
    method NewCategory(name: string, parentId: Option<int>) returns (message: string, id: int)
      modifies this
      ensures message == "Category created"
      ensures id == NextCategoryId(old(categories))
      ensures categories == old(categories)[id := Category(name, parentId)]
      ensures items == old(items) && knownTags == old(knownTags)
    {
      id := NextCategoryId(categories);
      categories := categories[id := Category(name, parentId)];
      message := "Category created";
    }

    /** The path guard and segment loop of `move`; reads the tables only. */
    method ResolvePath(path: string) returns (res: Resolution)
      ensures res == Resolve(categories, path)
    {
      var p := path;
      if p == ROOT {
        p := ROOT_SLASH;
      }
      if p == "" || !StartsWith(p, ROOT_SLASH) {
        return Invalid;
      }
      if p == ROOT_SLASH {
        return Found(None);
      }
      SplitAfterRoot(p);
      var parts := Split(p)[1..];
      var current: Option<int> := None;
      var i := 0;
      while i < |parts|
        invariant 0 <= i <= |parts|
        invariant i == 0 ==> current == None
        invariant i > 0 ==> current.Some?
        invariant i < |parts| ==> Descend(categories, parts, None) == Descend(categories, parts[i..], current)
        invariant i == |parts| ==> Descend(categories, parts, None) == current
      {
        var found := FirstChild(categories, parts[i], current);
        if found.None? {
          return NotFound(p);
        }
        if i + 1 < |parts| {
          assert parts[i..][1..] == parts[i + 1..];
        }
        current := found;
        i := i + 1;
      }
      res := Found(current);
    }

    /** `move`: resolve the target path, then reassign the parent or the category. */
    method Move(r: Ref, path: string) returns (reply: Reply)
      modifies this
      ensures knownTags == old(knownTags)
      ensures Resolve(old(categories), path).Invalid? ==>
        reply == Failed(INVALID_PATH) && categories == old(categories) && items == old(items)
      ensures Resolve(old(categories), path).NotFound? ==>
        reply == Failed(NOT_FOUND_PREFIX + Resolve(old(categories), path).path) &&
        categories == old(categories) && items == old(items)
      ensures Resolve(old(categories), path).Found? && r.CategoryRef? ==>
        var target := Resolve(old(categories), path).target;
        if r.id !in old(categories) then
          reply == Failed("Category not found.") && categories == old(categories) && items == old(items)
        else if target == Some(r.id) then
          reply == Failed("Cannot move category into itself.") && categories == old(categories) && items == old(items)
        else
          reply == Succeeded("Move successful.") && items == old(items) &&
          categories == old(categories)[r.id := old(categories)[r.id].(parent := target)]
      ensures Resolve(old(categories), path).Found? && r.ItemRef? ==>
        var target := Resolve(old(categories), path).target;
        if r.uid !in old(items) then
          reply == Failed("Item not found.") && categories == old(categories) && items == old(items)
        else
          reply == Succeeded("Move successful.") && categories == old(categories) &&
          items == old(items)[r.uid := old(items)[r.uid].(category := target)]
      ensures Resolve(old(categories), path).Found? && r.OtherType? ==>
        reply == Succeeded("Move successful.") && categories == old(categories) && items == old(items)
    {
      var res := ResolvePath(path);
      if res.Invalid? {
        return Failed(INVALID_PATH);
      }
      if res.NotFound? {
        return Failed(NOT_FOUND_PREFIX + res.path);
      }
      var target := res.target;
      match r {
        case CategoryRef(id) =>
          if id !in categories {
            return Failed("Category not found.");
          }
          if Some(id) == target {
            return Failed("Cannot move category into itself.");
          }
          categories := categories[id := categories[id].(parent := target)];
        case ItemRef(uid) =>
          if uid !in items {
            return Failed("Item not found.");
          }
          items := items[uid := items[uid].(category := target)];
        case OtherType =>
      }
      reply := Succeeded("Move successful.");
    }

    /**
     * `delete_cat`: mark `c` and, recursively, every child below it for deletion.
     * Returns the marked ids; the caller removes them in one commit.
     */
    method DeleteCat(c: int) returns (doomed: set<int>)
      requires Acyclic(categories) && c in categories
      ensures doomed == Subtree(categories, c)
      decreases |categories| - |Line(categories, Some(c))|
    {
      var children := set k | k in categories && categories[k].parent == Some(c);
      var pending := children;
      doomed := {};
      ChildrenDeeper(categories, c);
      while pending != {}
        invariant pending <= children
        invariant doomed <= Subtree(categories, c) - {c}
        invariant forall k :: k in children && k !in pending ==> Subtree(categories, k) <= doomed
        decreases pending
      {
        NonEmpty(pending);
        var k :| k in pending;
        ChildSubtree(categories, c, k);
        var below := DeleteCat(k);
        doomed := doomed + below;
        pending := pending - {k};
      }
      SelfInLine(categories, c);
      forall d | d in Subtree(categories, c) && d != c ensures d in doomed {
        var k := ChildOnWay(categories, c, d);
        assert k in children;
      }
      doomed := doomed + {c};
    }

    /** `delete` for an item, a category (with its subtree) or another type. */
    method Delete(r: Ref) returns (reply: Reply)
      requires r.CategoryRef? && r.id in categories ==> Acyclic(categories)
      modifies this
      ensures knownTags == old(knownTags)
      ensures r.ItemRef? ==>
        categories == old(categories) &&
        (if r.uid in old(items) then reply == Succeeded("Item deleted") && items == old(items) - {r.uid}
         else reply == Notice("Item not found") && items == old(items))
      ensures r.CategoryRef? && r.id !in old(categories) ==>
        reply == Notice("Category not found") && categories == old(categories) && items == old(items)
      ensures r.CategoryRef? && r.id in old(categories) ==>
        items == old(items) &&
        (if SubtreeHasItems(old(categories), old(items), r.id) then
           reply == Notice("Cannot delete category: it contains files.") && categories == old(categories)
         else
           reply == Succeeded("Category deleted") && categories == old(categories) - Subtree(old(categories), r.id))
      ensures r.OtherType? ==> reply == Notice("Invalid type") && categories == old(categories) && items == old(items)
    {
      match r
      case ItemRef(uid) =>
        if uid in items {
          items := items - {uid};
          reply := Succeeded("Item deleted");
        } else {
          reply := Notice("Item not found");
        }
      case CategoryRef(id) =>
        if id !in categories {
          return Notice("Category not found");
        }
        HasItemsIff(categories, items, id);
        if HasItems(categories, items, id) {
          return Notice("Cannot delete category: it contains files.");
        }
        var doomed := DeleteCat(id);
        categories := categories - doomed;
        reply := Succeeded("Category deleted");
      case OtherType =>
        reply := Notice("Invalid type");
    }

    /** The POST branch of `item_api`: overwrite name, count and tags, stamp the time. */
    method EditItem(uid: string, name: string, count: int, tags: string, now: int) returns (message: string)
      requires uid in items
      modifies this
      ensures items == old(items)[uid := Item(name, count, tags, now, old(items)[uid].category)]
      ensures categories == old(categories) && knownTags == old(knownTags)
      ensures message == "Item updated"
    {
      items := items[uid := Item(name, count, tags, now, items[uid].category)];
      message := "Item updated";
    }

    /** The POST branch of `tags_api`: append the tag unless it is already listed. */
    method AddTag(tag: string) returns (message: string, tags: seq<string>)
      modifies this
      ensures message == "Tag added"
      ensures knownTags == if tag in old(knownTags) then old(knownTags) else old(knownTags) + [tag]
      ensures tags == knownTags && tag in tags
      ensures (forall i, j :: 0 <= i < j < |old(knownTags)| ==> old(knownTags)[i] != old(knownTags)[j]) ==>
        forall i, j :: 0 <= i < j < |tags| ==> tags[i] != tags[j]
      ensures categories == old(categories) && items == old(items)
    {
      tags := knownTags;
      if tag !in tags {
        tags := tags + [tag];
        knownTags := tags;
      }
      message := "Tag added";
    }
  }
}
