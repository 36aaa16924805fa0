/**
 * What the tree build promises: where every item ends up, which flags are
 * raised, when the build raises, and how many places it fills.
 */
module TreeProofs {
  import opened Wrappers
  import opened Models
  import opened TreeSpec

  /** Positions listed in visiting order, none twice. */
  predicate Increasing(s: seq<nat>)
  {
    forall i, j :: 0 <= i < j < |s| ==> s[i] < s[j]
  }

  /** Some item among positions `lo` to `hi - 1` is a child of `p`. */
  predicate HasChildIn(d: seq<MenuItem>, p: nat, lo: nat, hi: nat)
    requires hi <= |d|
  {
    exists k :: lo <= k < hi && ChildOf(d, k, p)
  }

  /** Some item among positions `lo` to `hi - 1` is a child of `p` and directly matches. */
  predicate MatchingChildIn(d: seq<MenuItem>, path: string, p: nat, lo: nat, hi: nat)
    requires hi <= |d|
  {
    exists k :: lo <= k < hi && ChildOf(d, k, p) && Matches(d[k], path)
  }

  lemma HasChildInExtend(d: seq<MenuItem>, p: nat, lo: nat, hi: nat)
    requires lo <= hi < |d|
    ensures HasChildIn(d, p, lo, hi + 1) <==> HasChildIn(d, p, lo, hi) || ChildOf(d, hi, p)
  {
    if HasChildIn(d, p, lo, hi + 1) && !ChildOf(d, hi, p) {
      var k :| lo <= k < hi + 1 && ChildOf(d, k, p);
      assert k < hi;
    }
  }

  lemma MatchingChildInExtend(d: seq<MenuItem>, path: string, p: nat, lo: nat, hi: nat)
    requires lo <= hi < |d|
    ensures MatchingChildIn(d, path, p, lo, hi + 1) <==>
            MatchingChildIn(d, path, p, lo, hi) || (ChildOf(d, hi, p) && Matches(d[hi], path))
  {
    if MatchingChildIn(d, path, p, lo, hi + 1) && !(ChildOf(d, hi, p) && Matches(d[hi], path)) {
      var k :| lo <= k < hi + 1 && ChildOf(d, k, p) && Matches(d[k], path);
      assert k < hi;
    }
  }

  /**
   * The flag of the item at `p` once the first `n` items are visited: a
   * visited item has its own match or that of a child visited after it (its
   * own visit discarded what earlier children set); an unvisited item with a
   * visited child has been raised; any other item has no flag yet.
   */
  function ActiveAt(d: seq<MenuItem>, path: string, p: nat, n: nat): (r: Option<bool>)
    requires p < |d| && n <= |d|
  {
    if p < n then Some(Matches(d[p], path) || MatchingChildIn(d, path, p, p, n))
    else if HasChildIn(d, p, 0, n) then Some(true)
    else None
  }

  /**
   * The children list of the item at `p` once the first `n` items are visited:
   * it exists exactly when some visited item is its child, and then lists
   * exactly those children, in visiting order.
   */
  ghost predicate ChildrenAre(d: seq<MenuItem>, p: nat, n: nat, c: Option<seq<nat>>)
    requires p < |d| && n <= |d|
  {
    && (c.Some? <==> HasChildIn(d, p, 0, n))
    && (c.Some? ==> Increasing(c.value) && forall k :: k in c.value <==> 0 <= k < n && ChildOf(d, k, p))
  }

  /** The visit of the item at `j` does not raise. */
  predicate StepOk(d: seq<MenuItem>, path: string, j: nat)
    requires j < |d|
  {
    || d[j].IsRoot()
    || match Find(d, d[j].parentId.value)
       case None => false
       case Some(p) => Matches(d[j], path) || p <= j || HasChildIn(d, p, 0, j)
  }

  /** Every parent id is a key, and the parent comes before its children. */
  predicate ParentsFirst(d: seq<MenuItem>)
  {
    forall j :: 0 <= j < |d| && !d[j].IsRoot() ==>
      Find(d, d[j].parentId.value).Some? && Find(d, d[j].parentId.value).value < j
  }

  /** Number of entries over all children lists. */
  function ChildCount(a: seq<Annot>): (r: nat)
  {
    if a == [] then 0 else ChildCount(a[..|a| - 1]) + Len(a[|a| - 1].children)
  }

  function Len(c: Option<seq<nat>>): (r: nat)
  {
    if c.None? then 0 else |c.value|
  }

  lemma IncreasingAppend(s: seq<nat>, j: nat)
    requires Increasing(s) && Below(s, j)
    ensures Increasing(s + [j])
  {
    forall a, b | 0 <= a < b < |s| + 1
      ensures (s + [j])[a] < (s + [j])[b]
    {
      assert a < |s| && s[a] < j;
    }
  }

  /** Once the build has raised, later iterations are never reached: the error stands. */
  lemma {:induction false} RunErrPersists(d: seq<MenuItem>, path: string, m: nat, n: nat)
    requires m <= n <= |d| && Run(d, path, m).Err?
    ensures Run(d, path, n) == Run(d, path, m)
  {
    if m < n {
      RunErrPersists(d, path, m, n - 1);
    }
  }

  /** The tree lists exactly the visited roots, in visiting order. */
  lemma {:induction false} RunTree(d: seq<MenuItem>, path: string, n: nat)
    requires n <= |d| && Run(d, path, n).Ok?
    ensures Increasing(Run(d, path, n).value.tree)
    ensures forall k :: k in Run(d, path, n).value.tree <==> 0 <= k < n && d[k].IsRoot()
  {
    if n > 0 {
      var j := n - 1;
      RunTree(d, path, j);
      var t := Run(d, path, j).value.tree;
      var t' := Run(d, path, n).value.tree;
      assert t' == if d[j].IsRoot() then t + [j] else t;
      IncreasingAppend(t, j);
      forall k
        ensures k in t' <==> 0 <= k < n && d[k].IsRoot()
      {
        assert k in t + [j] <==> k in t || k == j;
      }
    }
  }

  /** One visit keeps every children list as `ChildrenAre` describes it. */
  lemma VisitChildren(d: seq<MenuItem>, path: string, j: nat, st: TreeState, st': TreeState, p: nat)
    requires j < |d| && WellShaped(st, |d|, j) && Visit(d, path, j, st) == Ok(st')
    requires p < |d| && ChildrenAre(d, p, j, st.annots[p].children)
    ensures ChildrenAre(d, p, j + 1, st'.annots[p].children)
  {
    HasChildInExtend(d, p, 0, j);
    var c := st.annots[p].children;
    if ChildOf(d, j, p) {
      var c' := Appended(c, j);
      assert st'.annots[p].children == Some(c');
      if c.Some? {
        IncreasingAppend(c.value, j);
      }
      forall k
        ensures k in c' <==> 0 <= k < j + 1 && ChildOf(d, k, p)
      {
        if c.None? {
          assert c' == [j];
          if 0 <= k < j && ChildOf(d, k, p) {
            assert HasChildIn(d, p, 0, j);
          }
        } else {
          assert k in c' <==> k in c.value || k == j;
        }
      }
    } else {
      assert st'.annots[p].children == c;
      if c.Some? {
        forall k
          ensures k in c.value <==> 0 <= k < j + 1 && ChildOf(d, k, p)
        {
        }
      }
    }
  }

  /** Every children list holds exactly the visited children, in visiting order. */
  lemma {:induction false} RunChildren(d: seq<MenuItem>, path: string, n: nat)
    requires n <= |d| && Run(d, path, n).Ok?
    ensures forall p :: 0 <= p < |d| ==> ChildrenAre(d, p, n, Run(d, path, n).value.annots[p].children)
  {
    if n > 0 {
      RunChildren(d, path, n - 1);
      var st := Run(d, path, n - 1).value;
      forall p | 0 <= p < |d|
        ensures ChildrenAre(d, p, n, Run(d, path, n).value.annots[p].children)
      {
        VisitChildren(d, path, n - 1, st, Run(d, path, n).value, p);
      }
    }
  }

  /** Every flag, after `n` visits, is the one `ActiveAt` describes. */
  lemma {:induction false} RunActive(d: seq<MenuItem>, path: string, n: nat)
    requires n <= |d| && Run(d, path, n).Ok?
    ensures forall p :: 0 <= p < |d| ==> Run(d, path, n).value.annots[p].active == ActiveAt(d, path, p, n)
  {
    if n > 0 {
      var j := n - 1;
      RunActive(d, path, j);
      var st := Run(d, path, j).value;
      var st' := Run(d, path, n).value;
      forall p | 0 <= p < |d|
        ensures st'.annots[p].active == ActiveAt(d, path, p, n)
      {
        HasChildInExtend(d, p, 0, j);
        if p <= j {
          MatchingChildInExtend(d, path, p, p, j);
        }
        assert st.annots[p].active == ActiveAt(d, path, p, j);
        if p == j {
          assert !MatchingChildIn(d, path, p, p, j);
        } else if ChildOf(d, j, p) {
          if j < p {
            assert st.annots[p].active.Some? ==> st.annots[p].active == Some(true);
          }
        }
      }
    }
  }

  /** Given the flags `ActiveAt` describes, the visit of `j` raises exactly when `StepOk` fails. */
  lemma VisitOk(d: seq<MenuItem>, path: string, j: nat, st: TreeState)
    requires j < |d| && WellShaped(st, |d|, j)
    requires forall p :: 0 <= p < |d| ==> st.annots[p].active == ActiveAt(d, path, p, j)
    ensures Visit(d, path, j, st).Ok? <==> StepOk(d, path, j)
  {
    if !d[j].IsRoot() && Find(d, d[j].parentId.value).Some? {
      var p := Find(d, d[j].parentId.value).value;
      assert st.annots[p].active == ActiveAt(d, path, p, j);
    }
  }

  /** Past a prefix that did not raise, the next visit raises exactly when `StepOk` fails. */
  lemma RunOkStep(d: seq<MenuItem>, path: string, j: nat)
    requires j < |d| && Run(d, path, j).Ok?
    ensures Run(d, path, j + 1).Ok? <==> StepOk(d, path, j)
  {
    var st := Run(d, path, j).value;
    RunActive(d, path, j);
    VisitOk(d, path, j, st);
  }

  /** The build after `n` visits has not raised exactly when each visit was fine. */
  lemma {:induction false} RunOk(d: seq<MenuItem>, path: string, n: nat)
    requires n <= |d|
    ensures Run(d, path, n).Ok? <==> forall j :: 0 <= j < n ==> StepOk(d, path, j)
  {
    if n > 0 {
      RunOk(d, path, n - 1);
      assert (forall j :: 0 <= j < n ==> StepOk(d, path, j))
        <==> (forall j :: 0 <= j < n - 1 ==> StepOk(d, path, j)) && StepOk(d, path, n - 1);
      if Run(d, path, n - 1).Ok? {
        RunOkStep(d, path, n - 1);
      } else {
        RunErrPersists(d, path, n - 1, n);
      }
    }
  }

  lemma {:induction false} ChildCountSame(a: seq<Annot>, b: seq<Annot>)
    requires |a| == |b| && forall q :: 0 <= q < |a| ==> Len(a[q].children) == Len(b[q].children)
    ensures ChildCount(a) == ChildCount(b)
  {
    if a != [] {
      ChildCountSame(a[..|a| - 1], b[..|b| - 1]);
    }
  }

  lemma {:induction false} ChildCountNone(a: seq<Annot>)
    requires forall q :: 0 <= q < |a| ==> a[q].children.None?
    ensures ChildCount(a) == 0
  {
    if a != [] {
      ChildCountNone(a[..|a| - 1]);
    }
  }

  lemma {:induction false} ChildCountOneMore(a: seq<Annot>, b: seq<Annot>, p: nat)
    requires |a| == |b| && p < |a|
    requires forall q :: 0 <= q < |a| && q != p ==> Len(a[q].children) == Len(b[q].children)
    requires Len(b[p].children) == Len(a[p].children) + 1
    ensures ChildCount(b) == ChildCount(a) + 1
  {
    var n := |a|;
    if p == n - 1 {
      ChildCountSame(a[..n - 1], b[..n - 1]);
    } else {
      ChildCountOneMore(a[..n - 1], b[..n - 1], p);
    }
  }

  /** After `n` visits, the tree and the children lists hold `n` entries in all. */
  lemma {:induction false} RunCount(d: seq<MenuItem>, path: string, n: nat)
    requires n <= |d| && Run(d, path, n).Ok?
    ensures |Run(d, path, n).value.tree| + ChildCount(Run(d, path, n).value.annots) == n
  {
    if n > 0 {
      var j := n - 1;
      RunCount(d, path, j);
      var st := Run(d, path, j).value;
      var st' := Run(d, path, n).value;
      if d[j].IsRoot() {
        ChildCountSame(st.annots, st'.annots);
      } else {
        var p := Find(d, d[j].parentId.value).value;
        assert ChildOf(d, j, p);
        ChildCountOneMore(st.annots, st'.annots, p);
      }
    } else {
      ChildCountNone(Run(d, path, 0).value.annots);
    }
  }

  /** The children list `a` holds the item at position `k`. */
  ghost predicate Listed(a: Annot, k: nat)
  {
    a.children.Some? && k in a.children.value
  }

  /**
   * The item at `k` is in exactly one place: in the tree and in no children
   * list, or in the children list of exactly one item and not in the tree.
   */
  ghost predicate PlacedOnce(st: TreeState, k: nat)
  {
    if k in st.tree then
      forall p :: 0 <= p < |st.annots| ==> !Listed(st.annots[p], k)
    else
      exists p :: 0 <= p < |st.annots| && Listed(st.annots[p], k) &&
        forall q :: 0 <= q < |st.annots| && Listed(st.annots[q], k) ==> q == p
  }

  /**
   * A completed build places every item exactly once, no list repeats an
   * entry, and the places number as many as the items.
   */
  lemma EachItemPlacedOnce(d: seq<MenuItem>, path: string)
    requires Run(d, path, |d|).Ok?
    ensures forall k :: 0 <= k < |d| ==> PlacedOnce(Run(d, path, |d|).value, k)
    ensures Increasing(Run(d, path, |d|).value.tree)
    ensures forall p :: 0 <= p < |d| && Run(d, path, |d|).value.annots[p].children.Some? ==>
      Increasing(Run(d, path, |d|).value.annots[p].children.value)
    ensures |Run(d, path, |d|).value.tree| + ChildCount(Run(d, path, |d|).value.annots) == |d|
  {
    var st := Run(d, path, |d|).value;
    RunTree(d, path, |d|);
    RunChildren(d, path, |d|);
    RunOk(d, path, |d|);
    RunCount(d, path, |d|);
    forall k | 0 <= k < |d|
      ensures PlacedOnce(st, k)
    {
      assert StepOk(d, path, k);
      if !d[k].IsRoot() {
        var p := Find(d, d[k].parentId.value).value;
        assert ChildOf(d, k, p);
        assert ChildrenAre(d, p, |d|, st.annots[p].children);
        assert Listed(st.annots[p], k);
        forall q | 0 <= q < |st.annots| && Listed(st.annots[q], k)
          ensures q == p
        {
          assert ChildrenAre(d, q, |d|, st.annots[q].children);
        }
      } else {
        forall q | 0 <= q < |st.annots|
          ensures !Listed(st.annots[q], k)
        {
          assert ChildrenAre(d, q, |d|, st.annots[q].children);
        }
      }
    }
    forall p | 0 <= p < |d| && st.annots[p].children.Some?
      ensures Increasing(st.annots[p].children.value)
    {
      assert ChildrenAre(d, p, |d|, st.annots[p].children);
    }
  }

  /**
   * In a completed build, an item is active exactly when it matches or a child
   * visited after it matches: children visited earlier lose their effect.
   */
  lemma FinalActive(d: seq<MenuItem>, path: string)
    requires Run(d, path, |d|).Ok?
    ensures forall p :: 0 <= p < |d| ==>
      Run(d, path, |d|).value.annots[p].active == Some(Matches(d[p], path) || MatchingChildIn(d, path, p, p, |d|))
  {
    RunActive(d, path, |d|);
  }

  /** When every parent is a key and comes before its children, the build does not raise. */
  lemma ParentsFirstSucceeds(d: seq<MenuItem>, path: string)
    requires ParentsFirst(d)
    ensures Run(d, path, |d|).Ok?
  {
    RunOk(d, path, |d|);
  }

  /**
   * When parents come first, an item is active exactly when it or one of its
   * direct children matches the path.
   */
  lemma ParentsFirstActive(d: seq<MenuItem>, path: string)
    requires ParentsFirst(d)
    ensures Run(d, path, |d|).Ok?
    ensures forall p :: 0 <= p < |d| ==>
      Run(d, path, |d|).value.annots[p].active == Some(Matches(d[p], path) || MatchingChildIn(d, path, p, 0, |d|))
  {
    ParentsFirstSucceeds(d, path);
    FinalActive(d, path);
    forall p | 0 <= p < |d|
      ensures MatchingChildIn(d, path, p, p, |d|) == MatchingChildIn(d, path, p, 0, |d|)
    {
      if MatchingChildIn(d, path, p, 0, |d|) {
        var k :| 0 <= k < |d| && ChildOf(d, k, p) && Matches(d[k], path);
        assert p < k;
      }
    }
  }
}
