# Stocky catalogue core in Dafny

Stocky is a small inventory web application. Its data is a tree of **categories**: each
row has an integer id, a name and an optional parent id. **Items** hang in that tree:
each has a ten-digit text uid, a name, a count, a tag string, a timestamp and an optional
category id. There is also a flat list of known **tags**. This project models the engine
behind the JSON handlers, which work on that tree:

- breadcrumbs: `Root/A/B` for paths and `Root > A > B` for display;
- generating item uids;
- creating items (with de-duplication) and categories;
- resolving a `Root/...` path back to a category;
- moving categories and items;
- the test "does this subtree hold any item" and the cascading category delete that it
  guards;
- editing an item;
- adding a tag.

Module layout:

- `Wrappers`, `Ints`, `Text`: the `Option` type, the minimum and maximum of a finite set
  of ints, and Python's `"/".join` / `str.split('/')` on character sequences, with their
  round trips.
- `Tree`: the `Category` and `Item` records and the tables as maps. `Lineage` is the walk
  from a category up through its parents, as a fuel-bounded function. `WalkEnds` says the walk from one
  category ends, and `Acyclic` says every such walk ends. `Line` is the resulting list of ancestors, root first. `PathOf` is the breadcrumb
  built from it.
- `Subtrees`: `Subtree` is a category and its descendants. `HasItems` is
  `category_has_items`, proved equivalent to "some item lies in the subtree".
- `Paths`: the path guard and the segment resolver of `move` (`FirstChild`, `Descend`,
  `Resolve`). It proves that resolution is sound and that a breadcrumb resolves back to
  its category.
- `Catalogue`: the `Store` class. Its fields `categories`, `items` and `knownTags` are
  updated by one method per handler. The loops of the source are `while`/`for` loops
  proved against the functions above.
- `Invariants`: what the handlers do to the shape of the tree. A new category under an
  existing parent keeps a forest. A permitted cascading delete keeps a forest and strands
  no item. `move` can close a cycle, shown by a concrete example.

Outside inputs are parameters:

- the digits drawn by `random.randint(0, 9)`;
- the clock `int(time.time())`;
- the request's form fields, taken as already converted (ids as ints, `''` as None).

## Model

| member | source | states |
|---|---|---|
| Catalogue.DigitChar | main.py:31 | `str(d)` of a digit 0..9 is the character '0'..'9' whose code is `'0' + d` |
| Catalogue.GenerateUid | main.py:28-32 | the uid has exactly ten characters; character i is a decimal digit and equals draw i |
| Tree.Lineage | main.py:36-39 | the parent walk from `c`, if it ends within the fuel: every id is a category, `c` comes last, the first has no existing parent, each id is the parent of the next, and the walk is empty exactly when `c` is null or not a row |
| Tree.ParentStep | main.py:37-39 | in an acyclic table, a category's ancestor line is its parent's line followed by itself |
| Tree.LinePrefix | main.py:37-39 | every prefix of an ancestor line is the line of its last element |
| Tree.AncestorLine | main.py:37-39 | an ancestor's line is contained in, and strictly shorter than, its descendant's line |
| Tree.LineageDistinct | main.py:37-39 | a walk up the parents that ends never meets the same category twice |
| Tree.FinishedWalkEnds | main.py:37-39 | a walk that ends with any number of steps ends within one step per category, so `WalkEnds` holds exactly when the loop terminates |
| Catalogue.Store.AncestorNames | main.py:35-40 | whenever the walk from `c` ends, the loop and the reverse yield the names of the categories it visits, root first, ending with `c` itself; empty for no category |
| Catalogue.Store.BuildBreadcrumb | main.py:34-41 | whenever the walk from `c` ends, the result is the breadcrumb of the visited names: "Root" when there are none, else "Root/" and the names joined by "/"; in an acyclic table it is the path the resolver reads back |
| Invariants.BreadcrumbBesideCycle | main.py:34-41 | a cycle elsewhere in the table does not stop a breadcrumb: with C at the top and two categories each other's parent, C's walk ends and its breadcrumb is "Root/C" |
| Catalogue.Store.BuildBreadcrumbDisp | main.py:43-50 | the same names, as "Root" or "Root > " followed by the names joined by " > " |
| Catalogue.Store.GetPath | main.py:327-343 | a category gives its breadcrumb or "Category not found."; an item gives the breadcrumb of its category, "Root" when that is null or names no row (with no condition on the table), or "Item not found."; any other type gives "Invalid type." |
| Catalogue.Store.NewItem | main.py:345-359 | if an item with the same name and category exists, its uid is returned and nothing changes; otherwise the uid spells the draws; the item (count 0, empty tags, current time) is added exactly when that uid is free, and a clash leaves the table unchanged |
| Catalogue.NextCategoryId | main.py:367-370 | a new category's id is 1 in an empty table and otherwise one past the largest existing id: it is never taken and exceeds every id |
| Catalogue.Store.NewCategory | main.py:361-370 | the reply is "Category created" with the next id; the category table gains exactly the new row under the parent as given; items and tags are unchanged |
| Invariants.NewCategoryKeepsTree | main.py:361-370 | adding a category under no parent or an existing one keeps the table acyclic with no dangling parents, and the new category's line is its parent's line followed by it |
| Text.SplitJoin | main.py:41 | splitting a "/"-join of non-empty lists of pieces without "/" gives the pieces back |
| Text.JoinSplit | main.py:387 | joining the pieces of `split('/')` with "/" gives the original string |
| Paths.FirstChild | main.py:391 | the lookup returns a category with that name under that parent, the smallest such id, and None exactly when there is none |
| Paths.FirstChildUnique | main.py:391 | with unique sibling names, the lookup of a category's own name under its own parent finds that category |
| Paths.ResolveGuard | main.py:378-385 | a path is rejected exactly when it is neither "Root" nor starts with "Root/"; it means the root exactly when it is "Root" or "Root/"; a not-found report quotes the path as given |
| Paths.DescendSound | main.py:387-396 | segments matched from a parent downwards end at a category whose ancestor names are the parent's names followed by the segments |
| Paths.ResolveSound | main.py:378-396 | a path that resolves to a category is exactly that category's breadcrumb |
| Paths.ResolveBreadcrumb | main.py:378-396 | with existing parents, unique sibling names and names that are non-empty and have no "/", every category's breadcrumb (and "Root" for the root) resolves back to it |
| Catalogue.Store.ResolvePath | main.py:378-396 | the guard and the segment loop with its early "not found" exit compute the resolution of the path |
| Catalogue.Store.Move | main.py:372-414 | a bad path or one not found changes nothing and fails with its message; a missing category or item changes nothing; a category is refused as its own target; otherwise only the moved row's parent or category becomes the target (null for the root); an unknown type still reports success and changes nothing |
| Invariants.MoveCanCreateCycle | main.py:398-405 | with A at the top and B under A, "Root/A/B" resolves to B, and giving A the parent B, which the move allows, leaves a table that is not acyclic |
| Subtrees.HasItemsIff | main.py:416-422 | the recursive test is true exactly when some item's category lies in the subtree of the category |
| Subtrees.ChildSubtree | main.py:441-445 | a child's subtree lies inside its parent's subtree, without the parent |
| Subtrees.ChildOnWay | main.py:441-445 | every proper descendant lies in the subtree of some child |
| Catalogue.Store.DeleteCat | main.py:441-445 | the recursion over children marks exactly the subtree of the category |
| Catalogue.Store.Delete | main.py:424-450 | an item is removed with "Item deleted" or reported missing; a category is reported missing, refused when its subtree holds an item, or removed with its whole subtree; any other type gives "Invalid type"; nothing else changes |
| Invariants.DeleteKeepsTree | main.py:436-447 | a permitted cascading delete removes the category, and leaves the table acyclic with no dangling parents; every item that had an existing category still has one |
| Catalogue.Store.EditItem | main.py:468-474 | the item gets the new name, count and tags, and the time as its timestamp; its category and every other row are unchanged |
| Catalogue.Store.AddTag | main.py:492-497 | the reply is "Tag added"; the tag is appended exactly when absent; the returned list is the new list and contains the tag; a list without duplicates stays without duplicates |
| Catalogue.Store.constructor | main.py:25-26 | a fresh store has no categories, no items and an empty tag list |

## Left out

- The HTML pages are not modelled: the explorer, the item page, search, the index and the
  export. Their templates and JavaScript are not part of this model either.
- credcheck.py and "export as excel.py" are not part of this model.
- Flask routing and form parsing are left out. Ids arrive as ints, and `''` arrives as
  None. An `int(count)` that cannot parse and a missing form field are outside the model.
- The database session, commits and SQLite's foreign-key behaviour are not modelled.
  Each handler applies its change at once. A parent or category id that names no row is
  stored as given, as SQLite does without foreign-key enforcement.
- Randomness and the clock are parameters: the ten draws and the timestamp.
- The tag file's reading and writing (I/O, a missing file, malformed JSON) is left out.
  The field `knownTags` stands for its contents.
- The GET branches of `item_api` and `tags_api` are not modelled; they only read.
- Catalogue.Store.EditItem: requires the uid to exist. The source dereferences a missing
  item and fails with an uncaught error, which the model does not represent.
- Catalogue.Store.NewItem: among several items with the same name and category, it returns
  some matching uid, not necessarily the earliest inserted. Item rows are keyed by uid,
  and the map does not keep SQLite's insertion order.
- Catalogue.Store.AncestorNames: requires the walk from `c` to end (`WalkEnds`). By
  Tree.FinishedWalkEnds that holds exactly when the source's loop terminates. The model
  refuses only calls where the source's loop never ends: `c` on a parent cycle or below
  one. That non-termination is not modelled. The same applies to
  Catalogue.Store.BuildBreadcrumb and Catalogue.Store.BuildBreadcrumbDisp. It also applies
  to Catalogue.Store.GetPath for a category, or for an item whose category exists.
- Catalogue.Store.Delete: requires the whole table to be acyclic when deleting an
  existing category. Once any cycle exists, the model refuses every such call. The source
  still serves many of them:
  - a category that is not on a cycle is tested, and deleted, as usual;
  - a has-items test that meets an item before it reaches the cycle returns True, and the
    source replies "Cannot delete category: it contains files.".

  The source fails with an uncaught recursion error only when its recursion enters a
  cycle without finding an item. The same precondition applies to Subtrees.HasItems and
  Catalogue.Store.DeleteCat.
- Catalogue.Store.NewItem: a uid clash (`UidTaken`) is not a JSON reply in the source. The
  commit raises an uncaught IntegrityError, so the request fails with a server error. The
  model records the outcome and leaves the store unchanged, as the failed commit does.
- Catalogue.Store.GetPath: the reply is `PathFound` or `PathError` rather than a JSON
  object. The "success" flag is implied: true for a path, false for an error.
- Concurrent requests are not modelled; each handler runs alone.
