# django_menu: the menu tree build, modelled in Dafny

django_menu renders a navigation menu from a flat list of stored menu
items. Each item may name a parent item. The menu template tag looks up
the items of a menu by name and indexes them by id. It then makes one
pass over the index. In that pass it marks each item `active` when its URL
is the request path, attaches each child to its parent's `children_items`,
raises the parent's flag with the child's, and collects the items without
a parent as the roots of the tree.

The project models that core in four layers:

- `Models` (`models.dfy`) holds the stored record, `MenuItem`, and the URL
  it resolves to (`get_url`). A parent id of `0` or `None` is falsy, so such
  an item is a root (`IsRoot`).
- `TreeSpec` (`tree_spec.dfy`) states the build on values. The index is the
  sequence of its values in iteration order, and an item is named by its
  position in it. `Visit` is one loop iteration and `Run` is the first `n`
  iterations. Each reads and assigns the two attributes the build attaches
  to every instance. `None` stands for an attribute that does not exist
  yet. The two ways the loop raises are the values `MissingParent`
  (`items.get` returns `None` and `parent.active` fails) and
  `UnsetParentActive` (`parent.active` is read before anything assigned it).
- `TreeProofs` (`tree_proofs.dfy`) proves what the build guarantees, for
  every input:
  - Where every item ends up.
  - What every flag is.
  - Exactly when the build raises.
  - That the places it fills number as many as the items.
- `MenuTag` (`menu_tag.dfy`) is the template tag's own code:
  - The id index (a dictionary comprehension), as a function over the
    loaded rows.
  - `get_tree`, as a method that changes the `active` and `childrenItems`
    fields of `ItemInstance` objects in place. It is proved to leave exactly
    the attributes `Run` describes and to return the roots `Run` lists.
  - `get_menu_items`, which gives an empty list for an unknown menu name.
- `TreeScenarios` (`scenarios.dfy`) works through small menus, including
  the places where the code departs from "an item is active when any
  descendant matches".

### Behaviour worth knowing

Each of these follows from the code alone. Several differ from the natural
expectation that "an item is active when any descendant matches".

- **Propagation goes up one level only.** A child raises only its direct
  parent, during the child's own visit. When the parent is visited after its
  child, the parent's visit overwrites its flag with its own match. So in a
  chain root → a → b → c where only `c` matches, `b` is active but `a` and
  the root are not: a grandchild's match does not reach the grandparent
  (`GrandchildMatchStopsAtParent`). A matching child visited before its
  parent loses its effect entirely (`MatchedChildBeforeParentIsOverwritten`).
  `FinalActive` gives the exact rule: an item is active when it matches, or
  when a direct child visited after it matches.
- **A dangling parent id raises.** `items.get` returns `None`. A child that
  does not match fails when it reads `parent.active`, and a matching child
  fails when it assigns to it (`DanglingParentRaises`).
- **A child can fail on an unset parent flag.** When a child that does not
  match comes before its parent, it reads the parent's `active` attribute
  before anything assigned it, and that raises
  (`UnmatchedChildBeforeParentRaises`).
- **An item without a URL matches the path "#".** It resolves to `"#"`, and
  the comparison is on the resolved URL (`PlaceholderMatchesHashPath`). A
  request path starts with `/`, so a real request never hits this
  (`PlaceholderNeverMatchesRequestPath`).
- **Childless items get no list.** `children_items` is created only when the
  first child is appended, so an item without children has no such attribute,
  and the model records `None` (`AboutTeamScenario`).

## Model

| member | source | states |
|---|---|---|
| Models.MenuItem.GetUrl | django_menu/menu_app/models.py:24-27 | the resolved URL is never empty; it is the stored url when that is non-empty, and "#" when the url is null or empty |
| Models.RootWhenParentIdFalsy | django_menu/menu_app/templatetags/menu_tag.py:48 | the root test is truthiness: a missing parent id and a parent id of 0 make a root, any other parent id a child |
| Models.GetUrlDependsOnlyOnUrl | django_menu/menu_app/models.py:24-27 | two items with the same stored url resolve to the same URL, whatever their other fields |
| Models.PlaceholderNeverMatchesRequestPath | django_menu/menu_app/models.py:24-27 | an item without a url never resolves to a path that starts with "/" |
| TreeSpec.Find | django_menu/menu_app/templatetags/menu_tag.py:49 | the lookup by parent id finds a position holding that id with no earlier one, and finds nothing exactly when no item has the id |
| TreeSpec.MatchesByStoredUrl | django_menu/menu_app/templatetags/menu_tag.py:47 | an item with a non-empty url matches exactly that path; an item whose url is null or empty matches exactly "#" |
| TreeSpec.Appended | django_menu/menu_app/templatetags/menu_tag.py:51-53 | a list not created yet becomes the one-element list; an existing list keeps its entries, in order, with the new one added last |
| TreeSpec.Visit | django_menu/menu_app/templatetags/menu_tag.py:46-55 | one iteration: the item's own flag becomes its match, whatever it was before; a root is appended to the tree; a child raises its parent's flag to "child matches or parent was true" and is appended to the parent's list, which is created on first use; nothing else changes; it raises exactly when the parent id is not a key, or when a non-matching child reads an unassigned parent flag, with the matching error |
| TreeSpec.Run | django_menu/menu_app/templatetags/menu_tag.py:45-56 | after n iterations every position in the tree or in a children list is one of the n visited items |
| TreeProofs.RunErrPersists | django_menu/menu_app/templatetags/menu_tag.py:46-55 | once an iteration raises, the error is the build's result: later items are never visited |
| TreeProofs.RunTree | django_menu/menu_app/templatetags/menu_tag.py:54-55 | the tree holds exactly the visited roots, in visiting order, none twice |
| TreeProofs.VisitChildren | django_menu/menu_app/templatetags/menu_tag.py:51-53 | one visit keeps every children list equal to the visited children of that item, in visiting order, and existing exactly when there is one |
| TreeProofs.RunChildren | django_menu/menu_app/templatetags/menu_tag.py:48-53 | after n visits an item's children list exists exactly when a visited item is its child, and lists exactly those children, in order, once each |
| TreeProofs.RunActive | django_menu/menu_app/templatetags/menu_tag.py:47-50 | after n visits the flag of a visited item is "it matches, or a child visited after it matches"; an unvisited item with a visited child is true; any other item has no flag |
| TreeProofs.VisitOk | django_menu/menu_app/templatetags/menu_tag.py:48-50 | given those flags, a visit raises exactly when the item is a child whose parent id is not a key, or which does not match and whose parent comes later with no earlier child |
| TreeProofs.RunOkStep | django_menu/menu_app/templatetags/menu_tag.py:46-55 | past a prefix that did not raise, the next visit raises exactly when that step's condition fails |
| TreeProofs.RunOk | django_menu/menu_app/templatetags/menu_tag.py:46-55 | the build does not raise exactly when every visit's condition holds (both directions) |
| TreeProofs.RunCount | django_menu/menu_app/templatetags/menu_tag.py:45-56 | after n visits the tree and all children lists hold n entries together |
| TreeProofs.EachItemPlacedOnce | django_menu/menu_app/templatetags/menu_tag.py:45-56 | a completed build places every item exactly once (in the tree, or in exactly one children list), keeps each list in visiting order without repeats, and fills as many places as there are items |
| TreeProofs.FinalActive | django_menu/menu_app/templatetags/menu_tag.py:47-50 | in a completed build an item is active exactly when it matches or a child visited after it matches |
| TreeProofs.ParentsFirstSucceeds | django_menu/menu_app/templatetags/menu_tag.py:48-50 | when every parent id is a key and the parent comes before its children, the build does not raise |
| TreeProofs.ParentsFirstActive | django_menu/menu_app/templatetags/menu_tag.py:47-50 | when parents come first, an item is active exactly when it or one of its direct children matches |
| TreeScenarios.FindAt | django_menu/menu_app/templatetags/menu_tag.py:49 | the first position holding a key is the one the lookup finds |
| TreeScenarios.AboutTeamScenario | django_menu/menu_app/templatetags/menu_tag.py:45-56 | Home, About and Team (a child of About) at path "/about/team": the roots are Home and About, About's children are [Team], About and Team are active, Home is not |
| TreeScenarios.GrandchildMatchStopsAtParent | django_menu/menu_app/templatetags/menu_tag.py:47-50 | in a chain root, a, b, c where only c matches, b and c are active but a and the root are not |
| TreeScenarios.EmptyIndexBuildsNothing | django_menu/menu_app/templatetags/menu_tag.py:45-56 | an empty index gives an empty tree and no attribute |
| TreeScenarios.PlaceholderMatchesHashPath | django_menu/menu_app/templatetags/menu_tag.py:47 | an item without a url is active for the path "#" |
| TreeScenarios.ParentIdZeroIsRoot | django_menu/menu_app/templatetags/menu_tag.py:48 | an item whose parent id is 0 is a root |
| TreeScenarios.DanglingParentRaises | django_menu/menu_app/templatetags/menu_tag.py:49-50 | a parent id that is not a key raises |
| TreeScenarios.UnmatchedChildBeforeParentRaises | django_menu/menu_app/templatetags/menu_tag.py:50 | a non-matching child visited before its parent raises on the parent's unset flag |
| TreeScenarios.MatchedChildBeforeParentIsOverwritten | django_menu/menu_app/templatetags/menu_tag.py:47-50 | a matching child visited before its root parent does not raise, but the parent's own visit resets its flag to false |
| MenuTag.ItemInstance.constructor | django_menu/menu_app/templatetags/menu_tag.py:26-27 | a freshly loaded instance carries its stored fields and no build attribute |
| MenuTag.Put | django_menu/menu_app/templatetags/menu_tag.py:28 | a dictionary assignment keeps ids distinct and holds the new instance; a new id is added last, an id already present keeps its place and only its entry changes |
| MenuTag.IndexById | django_menu/menu_app/templatetags/menu_tag.py:28 | the id index has one entry per id, each of them one of the loaded rows |
| MenuTag.PutLaterWins | django_menu/menu_app/templatetags/menu_tag.py:28 | one more assignment keeps, for every id, the last row carrying it |
| MenuTag.IndexByIdLaterWins | django_menu/menu_app/templatetags/menu_tag.py:28 | for every row, the index entry with its id is that row or a later one with the same id |
| MenuTag.IndexByIdDistinct | django_menu/menu_app/templatetags/menu_tag.py:28 | with distinct ids, as primary keys are, the index holds the rows themselves in their order |
| MenuTag.VisitInstance | django_menu/menu_app/templatetags/menu_tag.py:46-55 | one loop iteration on the instances raises the error Visit gives, or leaves the attributes Visit describes and the tree extended by the root |
| MenuTag.GetTree | django_menu/menu_app/templatetags/menu_tag.py:34-56 | over freshly loaded instances, it returns the error Run gives, or returns the root instances Run lists and leaves on every instance the flag and children list Run describes |
| MenuTag.GetMenuItems | django_menu/menu_app/templatetags/menu_tag.py:24-31 | an unknown menu name gives an empty tree; otherwise the result is GetTree's over the id index of the menu's items |

## Left out

- The storage layer is left out: `Menu.objects.get`, the `filter` over a
  menu's items, `prefetch_related`, the `order` sort that `Meta.ordering`
  asks the database for, and the `unique_together` constraint of the schema. `GetMenuItems` takes what the store returns for the
  name as a parameter: nothing for an unknown name, otherwise the loaded
  instances in the order the store gives them.
- `draw_menu` and the `main/menu.html` template are left out. They read the
  request path and render markup, which is I/O outside the build.
- Both models' `__str__` methods are left out; they are display only. The
  field length limits and the migration are left out as well.
- Python exceptions are modelled as `Err` values. How they travel on through
  the template engine is not modelled.
- MenuTag.GetTree: requires instances that carry no build attribute yet. Its
  only caller always passes freshly loaded ones. A second build over the same
  instances is not modelled.
- MenuTag.GetTree: on the error path the contract states the error only, not
  the attributes that the iterations before the error left on the instances.
- MenuTag.GetMenuItems: on the error path the contract states the error only,
  for the same reason as `GetTree`.
- Concurrency is left out: requests that build the same menu at the same time
  each load their own instances.
