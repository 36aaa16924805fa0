/**
 * The tree build of the menu tag, stated on values: the id index is the
 * sequence of its values in iteration order, every instance is named by its
 * position in that sequence, and the attributes the build attaches to an
 * instance are kept in an `Annot` per position.
 */
module TreeSpec {
  import opened Wrappers
  import opened Models

  /**
   * The attributes the build attaches to one instance: `active`, and the
   * lazily created `children_items` list (as positions). `None` stands for an
   * attribute that has not been assigned yet.
   */
  datatype Annot = Annot(active: Option<bool>, children: Option<seq<nat>>)

  /** The attributes of every instance, and the `tree` list built so far. */
  datatype TreeState = TreeState(annots: seq<Annot>, tree: seq<nat>)

  /** The two ways the build raises. */
  datatype TreeError =
    | MissingParent(itemId: int, parentId: int)     // the parent id is not a key of the index
    | UnsetParentActive(itemId: int, parentId: int) // `parent.active` is read before anything assigned it

  /** The keys of a dictionary: no id occurs twice. */
  predicate DistinctIds(d: seq<MenuItem>)
  {
    forall i, j :: 0 <= i < j < |d| ==> d[i].id != d[j].id
  }

  /** Dictionary lookup by id: the position holding `key`, if any. */
  function Find(d: seq<MenuItem>, key: int): (r: Option<nat>)
    ensures r.Some? ==> r.value < |d| && d[r.value].id == key
    ensures r.Some? ==> forall k :: 0 <= k < r.value ==> d[k].id != key
    ensures r.None? <==> forall k :: 0 <= k < |d| ==> d[k].id != key
  {
    if d == [] then None
    else if d[0].id == key then Some(0)
    else match Find(d[1..], key)
      case None => None
      case Some(k) => Some(k + 1)
  }

  /** An item directly matches the request path when its resolved URL equals it. */
  predicate Matches(x: MenuItem, path: string)
  {
    x.GetUrl() == path
  }

  /**
   * In terms of the stored URL: a non-empty `url` matches exactly that path,
   * and an item without one matches exactly the path "#".
   */
  lemma MatchesByStoredUrl(x: MenuItem, path: string)
    ensures x.url.Some? && x.url.value != "" ==> (Matches(x, path) <==> x.url.value == path)
    ensures x.url == None || x.url == Some("") ==> (Matches(x, path) <==> path == "#")
  {
  }

  /** The item at position `k` is attached below the item at position `p`. */
  predicate ChildOf(d: seq<MenuItem>, k: nat, p: nat)
    requires k < |d|
  {
    !d[k].IsRoot() && Find(d, d[k].parentId.value) == Some(p)
  }

  /**
   * One attribute per item, and every position mentioned in the tree or in a
   * children list is one of the first `n` (the items visited so far).
   */
  predicate WellShaped(st: TreeState, size: nat, n: nat)
  {
    && |st.annots| == size
    && (forall i :: 0 <= i < |st.tree| ==> st.tree[i] < n)
    && (forall p :: 0 <= p < |st.annots| && st.annots[p].children.Some? ==> Below(st.annots[p].children.value, n))
  }

  /** Every position in `ps` is below `n`. */
  predicate Below(ps: seq<nat>, n: nat)
  {
    forall i :: 0 <= i < |ps| ==> ps[i] < n
  }

  /** The attributes of freshly loaded instances: none assigned. */
  function Unset(size: nat): (a: seq<Annot>)
    ensures |a| == size && forall p :: 0 <= p < size ==> a[p] == Annot(None, None)
  {
    seq(size, _ => Annot(None, None))
  }

  /** A lazily created list with `j` appended. */
  function Appended(c: Option<seq<nat>>, j: nat): (r: seq<nat>)
    ensures c.None? ==> r == [j]
    ensures c.Some? ==> |r| == |c.value| + 1 && r[..|c.value|] == c.value && r[|c.value|] == j
  {
    if c.None? then [j] else c.value + [j]
  }

  /**
   * The parent of the non-root item at `j` cannot be used: its id is not a
   * key, or the item does not match and reads the parent's flag while it is
   * unassigned (an item that is its own parent has just assigned it).
   */
  predicate ParentUnusable(d: seq<MenuItem>, path: string, j: nat, st: TreeState)
    requires j < |d| && |st.annots| == |d| && !d[j].IsRoot()
  {
    match Find(d, d[j].parentId.value)
    case None => true
    case Some(p) => !Matches(d[j], path) && p != j && st.annots[p].active.None?
  }

  /**
   * One iteration of the build loop, for the item at position `j`: assign its
   * own flag from the path, then either append it to `tree` (a root) or look
   * its parent up, raise the parent's flag with its own and append it to the
   * parent's children.
   */
  function Visit(d: seq<MenuItem>, path: string, j: nat, st: TreeState): (r: Result<TreeState, TreeError>)
    requires j < |d| && WellShaped(st, |d|, j)
    ensures r.Ok? ==> WellShaped(r.value, |d|, j + 1)
    // the item's own flag is overwritten, whatever was assigned to it before
    ensures r.Ok? ==> r.value.annots[j].active == Some(Matches(d[j], path))
    // the parent's flag becomes the child's flag or its own, so it is never lowered
    ensures r.Ok? ==> forall q {:trigger r.value.annots[q]} :: 0 <= q < |d| && q != j && ChildOf(d, j, q) ==>
      r.value.annots[q].active == Some(Matches(d[j], path) || st.annots[q].active == Some(true))
    // the item is appended to its parent's children, the list being created on first use
    ensures r.Ok? ==> forall q {:trigger r.value.annots[q]} :: 0 <= q < |d| && ChildOf(d, j, q) ==>
      r.value.annots[q].children == Some(Appended(st.annots[q].children, j))
    // no other flag and no other children list changes
    ensures r.Ok? ==> forall q {:trigger r.value.annots[q]} :: 0 <= q < |d| && q != j && !ChildOf(d, j, q) ==> r.value.annots[q].active == st.annots[q].active
    ensures r.Ok? ==> forall q {:trigger r.value.annots[q]} :: 0 <= q < |d| && !ChildOf(d, j, q) ==> r.value.annots[q].children == st.annots[q].children
    // only a root is added to the tree
    ensures r.Ok? ==> r.value.tree == if d[j].IsRoot() then st.tree + [j] else st.tree
    // it raises exactly when the parent is missing, or when a child that does not
    // match reads the flag of a parent that nothing has assigned yet
    ensures r.Err? <==> (!d[j].IsRoot() && ParentUnusable(d, path, j, st))
    ensures r.Err? && Find(d, d[j].parentId.value).None? ==> r.error == MissingParent(d[j].id, d[j].parentId.value)
    ensures r.Err? && Find(d, d[j].parentId.value).Some? ==> r.error == UnsetParentActive(d[j].id, d[j].parentId.value)
  {
    var x := d[j];
    var a := st.annots[j := st.annots[j].(active := Some(Matches(x, path)))];
    if x.IsRoot() then
      Ok(TreeState(a, st.tree + [j]))
    else
      match Find(d, x.parentId.value)
      case None => Err(MissingParent(x.id, x.parentId.value))
      case Some(p) =>
        if !Matches(x, path) && a[p].active.None? then
          Err(UnsetParentActive(x.id, x.parentId.value))
        else
          var raised := Matches(x, path) || a[p].active.value;
          Ok(TreeState(a[p := Annot(Some(raised), Some(Appended(a[p].children, j)))], st.tree))
  }

  /** The build loop after its first `n` iterations, starting from freshly loaded instances. */
  function Run(d: seq<MenuItem>, path: string, n: nat): (r: Result<TreeState, TreeError>)
    requires n <= |d|
    ensures r.Ok? ==> WellShaped(r.value, |d|, n)
  {
    if n == 0 then Ok(TreeState(Unset(|d|), []))
    else
      match Run(d, path, n - 1)
      case Err(e) => Err(e)
      case Ok(st) => Visit(d, path, n - 1, st)
  }
}
