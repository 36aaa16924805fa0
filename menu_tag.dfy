/**
 * The menu template tag: the id index over a menu's items, the in-place tree
 * build over the loaded item instances, and the lookup that returns an empty
 * menu when the name is unknown.
 */
module MenuTag {
  import opened Wrappers
  import opened Models
  import opened TreeSpec
  import TreeProofs

  /**
   * A menu item as loaded from the store: its stored fields, and the two
   * attributes the tree build attaches to it at run time (`None` while the
   * attribute does not exist on the instance).
   */
  class ItemInstance {
    const item: MenuItem
    var active: Option<bool>
    var childrenItems: Option<seq<ItemInstance>>

    constructor (item: MenuItem)
      ensures this.item == item && active == None && childrenItems == None
    {
      this.item := item;
      active := None;
      childrenItems := None;
    }
  }

  /** The stored fields of each instance. */
  function Records(items: seq<ItemInstance>): (r: seq<MenuItem>)
    ensures |r| == |items| && forall k {:trigger r[k]} :: 0 <= k < |items| ==> r[k] == items[k].item
  {
    seq(|items|, k requires 0 <= k < |items| => items[k].item)
  }

  /** The instances at the given positions. */
  function Objects(items: seq<ItemInstance>, ps: seq<nat>): (r: seq<ItemInstance>)
    requires Below(ps, |items|)
    ensures |r| == |ps| && forall k {:trigger r[k]} :: 0 <= k < |ps| ==> r[k] == items[ps[k]]
  {
    seq(|ps|, k requires 0 <= k < |ps| => items[ps[k]])
  }

  lemma ObjectsAppend(items: seq<ItemInstance>, ps: seq<nat>, j: nat)
    requires Below(ps, |items|) && j < |items|
    ensures Objects(items, ps + [j]) == Objects(items, ps) + [items[j]]
  {
  }

  /** The `childrenItems` attribute that a recorded children list stands for. */
  function Kids(items: seq<ItemInstance>, c: Option<seq<nat>>): (r: Option<seq<ItemInstance>>)
    requires c.Some? ==> Below(c.value, |items|)
    ensures r.None? <==> c.None?
  {
    if c.None? then None else Some(Objects(items, c.value))
  }

  /** The build attributes of one instance: `active` and `childrenItems`. */
  type Attrs = (Option<bool>, Option<seq<ItemInstance>>)

  /** The build attributes of the instances as they stand. */
  function Snapshot(items: seq<ItemInstance>): (r: seq<Attrs>)
    reads items
    ensures |r| == |items|
    ensures forall k {:trigger r[k]} :: 0 <= k < |items| ==> r[k] == (items[k].active, items[k].childrenItems)
  {
    seq(|items|, k reads items requires 0 <= k < |items| => (items[k].active, items[k].childrenItems))
  }

  /** The build attributes a build state stands for. */
  function Expected(items: seq<ItemInstance>, st: TreeState): (r: seq<Attrs>)
    requires WellShaped(st, |items|, |items|)
    ensures |r| == |items|
    ensures forall k {:trigger r[k]} :: 0 <= k < |items| ==>
      r[k] == (st.annots[k].active, Kids(items, st.annots[k].children))
  {
    seq(|items|, k requires 0 <= k < |items| => (st.annots[k].active, Kids(items, st.annots[k].children)))
  }

  /** The attributes on the instances are those the build state records. */
  ghost predicate Mirrors(items: seq<ItemInstance>, st: TreeState)
    reads items
  {
    WellShaped(st, |items|, |items|) && Snapshot(items) == Expected(items, st)
  }

  /** No instance carries an attribute of the build yet. */
  ghost predicate Unannotated(items: seq<ItemInstance>)
    reads items
  {
    forall k :: 0 <= k < |items| ==> items[k].active == None && items[k].childrenItems == None
  }

  /** Instances that carry no attribute yet are what the initial build state stands for. */
  lemma UnannotatedMirrorsUnset(items: seq<ItemInstance>)
    requires Unannotated(items)
    ensures Mirrors(items, TreeState(Unset(|items|), []))
  {
    assert Snapshot(items) == Expected(items, TreeState(Unset(|items|), []));
  }

  /**
   * Dictionary assignment `d[x.id] = x`: an id already present keeps its
   * place and takes the new instance, a new id is added last.
   */
  function Put(d: seq<ItemInstance>, x: ItemInstance): (r: seq<ItemInstance>)
    requires DistinctIds(Records(d))
    ensures DistinctIds(Records(r))
    ensures x in r
    ensures forall y :: y in r ==> y in d || y == x
    ensures forall y :: y in d && y.item.id != x.item.id ==> y in r
    // a new id is added last
    ensures Find(Records(d), x.item.id).None? ==> r == d + [x]
    // an id already present keeps its place, and only its entry changes
    ensures Find(Records(d), x.item.id).Some? ==>
      var k := Find(Records(d), x.item.id).value;
      |r| == |d| && r[k] == x && forall i :: 0 <= i < |d| && i != k ==> r[i] == d[i]
  {
    match Find(Records(d), x.item.id)
    case Some(k) =>
      var r := d[k := x];
      assert r[k] == x;
      assert Records(r) == Records(d)[k := x.item];
      assert forall y :: y in d && y.item.id != x.item.id ==> y in r by {
        forall y | y in d && y.item.id != x.item.id ensures y in r {
          var q :| 0 <= q < |d| && d[q] == y;
          assert r[q] == y;
        }
      }
      r
    case None =>
      assert Records(d + [x]) == Records(d) + [x.item];
      d + [x]
  }

  /**
   * The id index `{item.id: item for item in rows}`, as its values in
   * iteration order: one entry per id, each entry one of the rows.
   */
  function IndexById(rows: seq<ItemInstance>): (d: seq<ItemInstance>)
    ensures DistinctIds(Records(d))
    ensures forall x :: x in d ==> x in rows
  {
    if rows == [] then []
    else
      var d0 := IndexById(rows[..|rows| - 1]);
      assert forall x :: x in d0 ==> x in rows by {
        forall x | x in d0 ensures x in rows {
          var j :| 0 <= j < |rows| - 1 && rows[..|rows| - 1][j] == x;
          assert rows[j] == x;
        }
      }
      Put(d0, rows[|rows| - 1])
  }

  /**
   * Every id of the rows is a key of `d`, and its entry is the row carrying
   * that id that comes last: for each row, the entry with its id is that row
   * or a later one.
   */
  ghost predicate LaterWins(rows: seq<ItemInstance>, d: seq<ItemInstance>)
  {
    forall k :: 0 <= k < |rows| ==> EntryAtOrAfter(rows, d, k)
  }

  /** The entry of `d` with the id of the row at `k` is that row or a later one. */
  ghost predicate EntryAtOrAfter(rows: seq<ItemInstance>, d: seq<ItemInstance>, k: nat)
    requires k < |rows|
  {
    exists j :: k <= j < |rows| && rows[j] in d && rows[j].item.id == rows[k].item.id
  }

  lemma PutLaterWins(init: seq<ItemInstance>, d0: seq<ItemInstance>, x: ItemInstance)
    requires DistinctIds(Records(d0)) && LaterWins(init, d0)
    ensures LaterWins(init + [x], Put(d0, x))
  {
    var rows := init + [x];
    var d := Put(d0, x);
    forall k | 0 <= k < |rows|
      ensures EntryAtOrAfter(rows, d, k)
    {
      if rows[k].item.id == x.item.id {
        assert rows[|init|] == x;
      } else {
        assert rows[k] == init[k] && EntryAtOrAfter(init, d0, k);
        var j :| k <= j < |init| && init[j] in d0 && init[j].item.id == init[k].item.id;
        assert rows[j] == init[j];
      }
    }
  }

  /** The index keeps, for every id, the last row carrying it. */
  lemma {:induction false} IndexByIdLaterWins(rows: seq<ItemInstance>)
    ensures LaterWins(rows, IndexById(rows))
  {
    if rows != [] {
      var n := |rows| - 1;
      var init, d0 := rows[..n], IndexById(rows[..n]);
      assert init + [rows[n]] == rows;
      assert IndexById(rows) == Put(d0, rows[n]);
      IndexByIdLaterWins(init);
      PutLaterWins(init, d0, rows[n]);
    }
  }

  /**
   * With distinct ids, as primary keys are, the index holds the rows
   * themselves in their original order.
   */
  lemma {:induction false} IndexByIdDistinct(rows: seq<ItemInstance>)
    requires DistinctIds(Records(rows))
    ensures IndexById(rows) == rows
  {
    if rows != [] {
      var n := |rows| - 1;
      var init := rows[..n];
      assert init + [rows[n]] == rows;
      assert Records(init) == Records(rows)[..n];
      IndexByIdDistinct(init);
      assert rows[n].item == Records(rows)[n];
      assert forall k :: 0 <= k < n ==> Records(init)[k].id != rows[n].item.id;
      assert Find(Records(init), rows[n].item.id).None?;
    }
  }

  /** No instance appears twice in the index. */
  ghost predicate DistinctInstances(items: seq<ItemInstance>) {
    forall a, b :: 0 <= a < b < |items| ==> items[a] != items[b]
  }

  lemma DistinctIdsInstances(items: seq<ItemInstance>)
    requires DistinctIds(Records(items))
    ensures DistinctInstances(items)
  {
    forall a, b | 0 <= a < b < |items| ensures items[a] != items[b] {
      assert Records(items)[a].id != Records(items)[b].id;
    }
  }

  /** Changing the annotation at `k` changes the attributes it stands for at `k` only. */
  lemma ExpectedWrite(items: seq<ItemInstance>, st: TreeState, st': TreeState, k: nat)
    requires WellShaped(st, |items|, |items|) && WellShaped(st', |items|, |items|) && k < |items|
    requires st'.annots == st.annots[k := st'.annots[k]]
    ensures Expected(items, st') == Expected(items, st)[k := (st'.annots[k].active, Kids(items, st'.annots[k].children))]
  {
  }

  /**
   * One iteration of the build loop, on the instances: assigns the flag of
   * the instance at `i`, then either appends it to `tree` or looks its parent
   * up, raises the parent's flag and appends it to the parent's
   * `childrenItems`. It does what `Visit` describes.
   */
  method VisitInstance(items: seq<ItemInstance>, d: seq<MenuItem>, currentPath: string, i: nat,
                       tree: seq<ItemInstance>, ghost st: TreeState)
    returns (r: Result<seq<ItemInstance>, TreeError>)
    requires d == Records(items) && DistinctIds(d) && i < |items|
    requires Run(d, currentPath, i) == Ok(st) && Mirrors(items, st) && tree == Objects(items, st.tree)
    modifies items
    ensures Run(d, currentPath, i + 1).Err? ==> r == Err(Run(d, currentPath, i + 1).error)
    ensures Run(d, currentPath, i + 1).Ok? ==>
      && r == Ok(Objects(items, Run(d, currentPath, i + 1).value.tree))
      && Mirrors(items, Run(d, currentPath, i + 1).value)
  {
    assert Run(d, currentPath, i + 1) == Visit(d, currentPath, i, st);
    DistinctIdsInstances(items);
    var item := items[i];
    ghost var next := Visit(d, currentPath, i, st);
    ghost var m := Matches(d[i], currentPath);
    ghost var a := st.annots[i := st.annots[i].(active := Some(m))];
    ghost var st1 := TreeState(a, st.tree);
    assert WellShaped(st1, |items|, |items|);
    ExpectedWrite(items, st, st1, i);
    item.active := Some(item.item.GetUrl() == currentPath);
    forall k | 0 <= k < |items| ensures Snapshot(items)[k] == Expected(items, st1)[k] {
      assert old(Snapshot(items))[k] == Expected(items, st)[k];
      if k != i {
        assert items[k] != items[i];
      }
    }
    assert Snapshot(items) == Expected(items, st1);
    if item.item.IsRoot() {
      assert next == Ok(TreeState(a, st.tree + [i]));
      assert Expected(items, next.value) == Expected(items, st1);
      ObjectsAppend(items, st.tree, i);
      return Ok(tree + [item]);
    }
    var found := Find(d, item.item.parentId.value);
    if found.None? {
      return Err(MissingParent(item.item.id, item.item.parentId.value));
    }
    var parent := items[found.value];
    ghost var p := found.value;
    assert Snapshot(items)[p] == Expected(items, st1)[p];
    if !item.active.value && parent.active.None? {
      return Err(UnsetParentActive(item.item.id, item.item.parentId.value));
    }
    ghost var c := a[p].children;
    assert next == Ok(TreeState(a[p := Annot(Some(m || a[p].active.value), Some(Appended(c, i)))], st.tree));
    ExpectedWrite(items, st1, next.value, p);
    label Flagged:
    parent.active := Some(item.active.value || parent.active.value);
    if parent.childrenItems.None? {
      parent.childrenItems := Some([]);
    }
    parent.childrenItems := Some(parent.childrenItems.value + [item]);
    ObjectsAppend(items, if c.None? then [] else c.value, i);
    assert (if c.None? then [] else c.value) + [i] == Appended(c, i);
    forall k | 0 <= k < |items| ensures Snapshot(items)[k] == Expected(items, next.value)[k] {
      assert old@Flagged(Snapshot(items))[k] == Expected(items, st1)[k];
      if k != p {
        assert items[k] != items[p];
      }
    }
    assert Snapshot(items) == Expected(items, next.value);
    return Ok(tree);
  }

  /**
   * The tree build, in place: visits the index in iteration order, assigns
   * every instance's `active`, attaches every non-root instance to its
   * parent's `childrenItems` and collects the roots. It raises exactly when
   * the build specification does, and otherwise leaves on the instances the
   * attributes the specification computes.
   */
  method GetTree(items: seq<ItemInstance>, currentPath: string) returns (r: Result<seq<ItemInstance>, TreeError>)
    requires DistinctIds(Records(items))
    requires Unannotated(items)
    modifies items
    ensures Run(Records(items), currentPath, |items|).Err? ==> r == Err(Run(Records(items), currentPath, |items|).error)
    ensures Run(Records(items), currentPath, |items|).Ok? ==>
      && r == Ok(Objects(items, Run(Records(items), currentPath, |items|).value.tree))
      && Mirrors(items, Run(Records(items), currentPath, |items|).value)
  {
    var d := Records(items);
    var tree: seq<ItemInstance> := [];
    ghost var st := TreeState(Unset(|items|), []);
    UnannotatedMirrorsUnset(items);
    var i := 0;
    while i < |items|
      invariant 0 <= i <= |items|
      invariant Run(d, currentPath, i) == Ok(st)
      invariant tree == Objects(items, st.tree)
      invariant Mirrors(items, st)
    {
      ghost var next := Run(d, currentPath, i + 1);
      var step := VisitInstance(items, d, currentPath, i, tree, st);
      if step.Err? {
        TreeProofs.RunErrPersists(d, currentPath, i + 1, |items|);
        return step;
      }
      tree := step.value;
      st := next.value;
      i := i + 1;
    }
    r := Ok(tree);
  }

  /**
   * The items of the named menu as a tree. `store` is what the storage layer
   * returns for the name: `None` when no menu has it, otherwise the menu's
   * freshly loaded items. An unknown menu gives an empty tree.
   */
  method GetMenuItems(store: Option<seq<ItemInstance>>, currentPath: string) returns (r: Result<seq<ItemInstance>, TreeError>)
    requires store.Some? ==> Unannotated(store.value)
    modifies set x | store.Some? && x in IndexById(store.value)
    ensures store.None? ==> r == Ok([])
    ensures store.Some? ==>
      var d := IndexById(store.value);
      && (Run(Records(d), currentPath, |d|).Err? ==> r == Err(Run(Records(d), currentPath, |d|).error))
      && (Run(Records(d), currentPath, |d|).Ok? ==>
            && r == Ok(Objects(d, Run(Records(d), currentPath, |d|).value.tree))
            && Mirrors(d, Run(Records(d), currentPath, |d|).value))
  {
    if store.None? {
      return Ok([]);
    }
    var itemDict := IndexById(store.value);
    forall k | 0 <= k < |itemDict| ensures itemDict[k].active == None && itemDict[k].childrenItems == None {
      assert itemDict[k] in store.value;
    }
    assert forall x :: x in itemDict ==> x in store.value;
    r := GetTree(itemDict, currentPath);
  }
}
