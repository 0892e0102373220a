/** The highlight rule of the navigation bar (components/navigation.tsx). */
module Navigation {
  import opened Prelude

  const Root := "/"

  /** Whether the item linking to `href` is highlighted on page `pathname`. */
  function IsActive(pathname: string, href: string): (active: bool)
    ensures href == Root ==> (active <==> pathname == Root)
    ensures href != Root ==> (active <==> |href| <= |pathname| && pathname[..|href|] == href)
  {
    if href == Root then pathname == Root else StartsWith(pathname, href)
  }

  /** Every item is highlighted on its own page. */
  lemma ActiveOnOwnPath(href: string)
    ensures IsActive(href, href)
  {
    assert href[..|href|] == href;
  }

  /** Below any other item, the page `href + rest` highlights that item. */
  lemma ActiveBelow(href: string, rest: string)
    requires href != Root
    ensures IsActive(href + rest, href)
  {
    assert (href + rest)[..|href|] == href;
  }

  /** The root item is never highlighted on another page, although every path starts with "/". */
  lemma RootOnlyOnRoot(pathname: string)
    requires pathname != Root
    ensures !IsActive(pathname, Root)
  {
  }

  /** Prefix matching ignores segment boundaries. */
  lemma IgnoresSegmentBoundaries()
    ensures IsActive("/users/x", "/users")
    ensures IsActive("/usersettings", "/users")
  {
    var page := "/usersettings";
    assert page[..6] == "/users" by {
      forall k | 0 <= k < 6 ensures page[..6][k] == "/users"[k] { }
    }
    ActiveBelow("/users", "/x");
    assert "/users" + "/x" == "/users/x";
  }
}
