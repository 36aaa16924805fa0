/**
 * Builds of small menus that pin down what the menu tag does on small menus,
 * including the places where it differs from "an item is active when any
 * descendant matches".
 */
module TreeScenarios {
  import opened Wrappers
  import opened Models
  import opened TreeSpec

  /** The first position holding `key` is the one the lookup finds. */
  lemma FindAt(d: seq<MenuItem>, k: nat, key: int)
    requires k < |d| && d[k].id == key
    requires forall i :: 0 <= i < k ==> d[i].id != key
    ensures Find(d, key) == Some(k)
  {
  }

  /** Two roots, the second with one child whose URL is the request path. */
  lemma AboutTeamScenario()
    ensures var d := [MenuItem(1, "Home", Some("/"), None, 0),
                      MenuItem(2, "About", Some("/about"), None, 1),
                      MenuItem(3, "Team", Some("/about/team"), Some(2), 0)];
            Run(d, "/about/team", |d|)
              == Ok(TreeState([Annot(Some(false), None), Annot(Some(true), Some([2])), Annot(Some(true), None)], [0, 1]))
  {
    var d := [MenuItem(1, "Home", Some("/"), None, 0),
              MenuItem(2, "About", Some("/about"), None, 1),
              MenuItem(3, "Team", Some("/about/team"), Some(2), 0)];
    var path := "/about/team";
    var none := Annot(None, None);
    var off := Annot(Some(false), None);
    assert !Matches(d[0], path) && !Matches(d[1], path) && Matches(d[2], path);
    assert Find(d, 2) == Some(1);
    var s0 := TreeState([none, none, none], []);
    assert Unset(3) == s0.annots;
    assert Run(d, path, 0) == Ok(s0);
    var s1 := TreeState([off, none, none], [0]);
    assert s0.annots[0 := off] == s1.annots && s0.tree + [0] == s1.tree;
    assert Visit(d, path, 0, s0) == Ok(s1);
    var s2 := TreeState([off, off, none], [0, 1]);
    assert s1.annots[1 := off] == s2.annots && s1.tree + [1] == s2.tree;
    assert Visit(d, path, 1, s1) == Ok(s2);
    var s3 := TreeState([off, Annot(Some(true), Some([2])), Annot(Some(true), None)], [0, 1]);
    assert s2.annots[2 := Annot(Some(true), None)][1 := Annot(Some(true), Some([2]))] == s3.annots;
    assert Visit(d, path, 2, s2) == Ok(s3);
  }

  /**
   * A chain of four items where only the deepest matches: its parent is
   * raised, but the match goes no further up.
   */
  lemma GrandchildMatchStopsAtParent(root: MenuItem, a: MenuItem, b: MenuItem, c: MenuItem, path: string)
    requires root.IsRoot() && !a.IsRoot() && !b.IsRoot() && !c.IsRoot()
    requires a.parentId.value == root.id && b.parentId.value == a.id && c.parentId.value == b.id
    requires DistinctIds([root, a, b, c])
    requires !Matches(root, path) && !Matches(a, path) && !Matches(b, path) && Matches(c, path)
    ensures var r := Run([root, a, b, c], path, 4);
            r.Ok? && r.value.annots[0].active == Some(false) && r.value.annots[1].active == Some(false)
            && r.value.annots[2].active == Some(true) && r.value.annots[3].active == Some(true)
  {
    var d := [root, a, b, c];
    FindAt(d, 0, root.id);
    FindAt(d, 1, a.id);
    FindAt(d, 2, b.id);
    var none := Annot(None, None);
    var off := Annot(Some(false), None);
    var s0 := TreeState([none, none, none, none], []);
    assert Unset(4) == s0.annots;
    assert Run(d, path, 0) == Ok(s0);
    var s1 := TreeState([off, none, none, none], [0]);
    assert Visit(d, path, 0, s0) == Ok(s1) by {
      assert s0.annots[0 := off] == s1.annots && s0.tree + [0] == s1.tree;
    }
    assert Run(d, path, 1) == Ok(s1);
    var s2 := TreeState([Annot(Some(false), Some([1])), off, none, none], [0]);
    assert Visit(d, path, 1, s1) == Ok(s2) by {
      assert s1.annots[1 := off][0 := Annot(Some(false), Some([1]))] == s2.annots;
    }
    assert Run(d, path, 2) == Ok(s2);
    var s3 := TreeState([Annot(Some(false), Some([1])), Annot(Some(false), Some([2])), off, none], [0]);
    assert Visit(d, path, 2, s2) == Ok(s3) by {
      assert s2.annots[2 := off][1 := Annot(Some(false), Some([2]))] == s3.annots;
    }
    assert Run(d, path, 3) == Ok(s3);
    var s4 := TreeState([Annot(Some(false), Some([1])), Annot(Some(false), Some([2])), Annot(Some(true), Some([3])), Annot(Some(true), None)], [0]);
    assert Visit(d, path, 3, s3) == Ok(s4) by {
      assert s3.annots[3 := Annot(Some(true), None)][2 := Annot(Some(true), Some([3]))] == s4.annots;
    }
    assert Run(d, path, 4) == Ok(s4);
  }

  /** An empty index builds an empty tree and attaches nothing. */
  lemma EmptyIndexBuildsNothing(path: string)
    ensures Run([], path, 0) == Ok(TreeState([], []))
  {
  }

  /** An item without a URL resolves to "#" and is active for the path "#". */
  lemma PlaceholderMatchesHashPath()
    ensures Run([MenuItem(1, "Home", None, None, 0)], "#", 1).value.annots[0].active == Some(true)
  {
  }

  /** A parent id of 0 is falsy, so the item is a root. */
  lemma ParentIdZeroIsRoot()
    ensures Run([MenuItem(1, "Home", Some("/"), Some(0), 0)], "/", 1) == Ok(TreeState([Annot(Some(true), None)], [0]))
  {
    var s := Run([MenuItem(1, "Home", Some("/"), Some(0), 0)], "/", 1).value;
    assert s.annots == [Annot(Some(true), None)];
    assert s.tree == [0];
  }

  /** A parent id that is not a key raises. */
  lemma DanglingParentRaises()
    ensures Run([MenuItem(1, "Orphan", Some("/o"), Some(7), 0)], "/", 1) == Err(MissingParent(1, 7))
  {
  }

  /** A child that does not match and comes before its parent raises. */
  lemma UnmatchedChildBeforeParentRaises()
    ensures Run([MenuItem(2, "Child", Some("/c"), Some(1), 0), MenuItem(1, "Parent", Some("/p"), None, 0)], "/", 2)
            == Err(UnsetParentActive(2, 1))
  {
  }

  /**
   * A child that matches and comes before its parent does not raise, but the
   * parent's own visit later overwrites the flag the child raised.
   */
  lemma MatchedChildBeforeParentIsOverwritten(child: MenuItem, parent: MenuItem, path: string)
    requires parent.IsRoot() && !child.IsRoot() && child.parentId.value == parent.id && child.id != parent.id
    requires Matches(child, path) && !Matches(parent, path)
    ensures Run([child, parent], path, 2) == Ok(TreeState([Annot(Some(true), None), Annot(Some(false), Some([0]))], [1]))
  {
    var d := [child, parent];
    FindAt(d, 1, parent.id);
    var s0 := TreeState([Annot(None, None), Annot(None, None)], []);
    assert Unset(2) == s0.annots;
    assert Run(d, path, 0) == Ok(s0);
    var s1 := TreeState([Annot(Some(true), None), Annot(Some(true), Some([0]))], []);
    assert s0.annots[0 := Annot(Some(true), None)][1 := Annot(Some(true), Some([0]))] == s1.annots;
    assert Visit(d, path, 0, s0) == Ok(s1);
    var s2 := TreeState([Annot(Some(true), None), Annot(Some(false), Some([0]))], [1]);
    assert s1.annots[1 := Annot(Some(false), Some([0]))] == s2.annots && s1.tree + [1] == s2.tree;
    assert Visit(d, path, 1, s1) == Ok(s2);
  }
}
