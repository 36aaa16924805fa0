/**
 * The menu records of the storage layer, and the URL resolution that the
 * menu items carry with them.
 */
module Models {
  import opened Wrappers

  /**
   * One stored menu item. `url` is a nullable text column and `parentId`
   * is the nullable id of the parent item; the item's menu is not kept,
   * because the store hands over the items of one menu only.
   */
  datatype MenuItem = MenuItem(id: int, name: string, url: Option<string>, parentId: Option<int>, order: nat)
  {
    /** The URL to link to: the stored `url` when it is non-empty, `"#"` otherwise. */
    function GetUrl(): (r: string)
      ensures r != ""
      ensures url.Some? && url.value != "" ==> r == url.value
      ensures url == None || url == Some("") ==> r == "#"
    {
      if url.Some? && url.value != "" then url.value else "#"
    }

    /** An item is a root when its parent id is falsy: absent, or 0. */
    predicate IsRoot()
    {
      parentId.None? || parentId.value == 0
    }
  }

  /** A missing parent id and a parent id of 0 make a root; any other parent id makes a child. */
  lemma RootWhenParentIdFalsy(x: MenuItem)
    ensures x.parentId == None ==> x.IsRoot()
    ensures x.parentId == Some(0) ==> x.IsRoot()
    ensures x.parentId.Some? && x.parentId.value != 0 ==> !x.IsRoot()
  {
  }

  /** The resolved URL depends on `url` alone, not on the name, order or parent. */
  lemma GetUrlDependsOnlyOnUrl(a: MenuItem, b: MenuItem)
    requires a.url == b.url
    ensures a.GetUrl() == b.GetUrl()
  {
  }

  /**
   * An item without a URL resolves to `"#"`, so it never directly matches a
   * request path, which always begins with `/`.
   */
  lemma PlaceholderNeverMatchesRequestPath(x: MenuItem, path: string)
    requires x.url == None || x.url == Some("")
    requires |path| > 0 && path[0] == '/'
    ensures x.GetUrl() != path
  {
  }
}
