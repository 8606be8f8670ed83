/**
 * The site header (components/header.tsx): which navigation link is
 * highlighted for the current pathname, and the mobile menu's open/closed state.
 */
module Header {
  import JsString

  datatype NavItem = NavItem(name: string, path: string)

  /** The navigation links, in display order (the "Blog" entry is commented out). */
  const NavItems: seq<NavItem> := [
    NavItem("Home", "/"),
    NavItem("About", "/#about"),
    NavItem("Projects", "/#projects"),
    NavItem("Contact", "/#contact")
  ]

  /**
   * `isActive(path)` for the current `pathname`. The home link and in-page
   * anchors (`/#...`) are active only on the home page; any other link is
   * active on every pathname that starts with its path.
   */
  function IsActive(pathname: string, path: string): (active: bool)
    ensures path == "/" ==> (active <==> pathname == "/")
    ensures JsString.StartsWith(path, "/#") ==> (active <==> pathname == "/")
    ensures path != "/" && !JsString.StartsWith(path, "/#") ==>
              (active <==> JsString.StartsWith(pathname, path))
  {
    if path == "/" then pathname == "/"
    else if JsString.StartsWith(path, "/#") then pathname == "/"
    else JsString.StartsWith(pathname, path)
  }

  /** With the current links, the home page highlights every link and any other page none. */
  lemma NavItemsActiveOnlyAtHome(pathname: string)
    ensures forall i :: 0 <= i < |NavItems| ==> (IsActive(pathname, NavItems[i].path) <==> pathname == "/")
  {
    forall i | 0 <= i < |NavItems|
      ensures IsActive(pathname, NavItems[i].path) <==> pathname == "/"
    {
      var path := NavItems[i].path;
      if i > 0 {
        assert path[..2] == "/#";
      }
    }
  }

  /**
   * An anchor link is never highlighted on the pathname equal to its own path,
   * since a pathname carries no fragment that could make it equal "/".
   */
  lemma AnchorNeverActiveOnItself(path: string)
    requires JsString.StartsWith(path, "/#")
    ensures !IsActive(path, path)
  {
    assert |path| >= 2;
  }

  /** A non-anchor link other than home is highlighted on its own path and below it. */
  lemma PrefixLinkActiveBelow(path: string, rest: string)
    requires path != "/" && !JsString.StartsWith(path, "/#")
    ensures IsActive(path + rest, path)
  {
    assert (path + rest)[..|path|] == path;
  }

  /** The header's component state. */
  class HeaderState {
    const pathname: string
    var isScrolled: bool
    var mobileMenuOpen: bool

    /** Both state hooks start false: the mobile menu starts closed. */
    constructor (pathname: string)
      ensures this.pathname == pathname && !isScrolled && !mobileMenuOpen
    {
      this.pathname := pathname;
      isScrolled := false;
      mobileMenuOpen := false;
    }

    /** The toggle button: `setMobileMenuOpen(!mobileMenuOpen)`. */
    method ToggleMenu()
      modifies this
      ensures mobileMenuOpen == !old(mobileMenuOpen) && isScrolled == old(isScrolled)
    {
      mobileMenuOpen := !mobileMenuOpen;
    }

    /**
     * A click on the mobile menu's link `index`: the menu closes and the
     * browser goes to the link's path.
     */
    method ClickMobileLink(index: nat) returns (href: string)
      requires mobileMenuOpen && index < |NavItems|
      modifies this
      ensures !mobileMenuOpen && isScrolled == old(isScrolled)
      ensures href == NavItems[index].path
    {
      mobileMenuOpen := false;
      href := NavItems[index].path;
    }

    /** The highlight of each link, in display order (desktop and mobile alike). */
    function Highlighted(): (active: seq<bool>)
      ensures |active| == |NavItems|
      ensures forall i :: 0 <= i < |NavItems| ==> (active[i] <==> pathname == "/")
    {
      NavItemsActiveOnlyAtHome(pathname);
      seq(|NavItems|, i requires 0 <= i < |NavItems| => IsActive(pathname, NavItems[i].path))
    }
  }

  /** Two toggles bring the menu back to where it was; a link click always closes it. */
  method ToggleTwiceThenClick(header: HeaderState)
    requires !header.mobileMenuOpen
    modifies header
    ensures !header.mobileMenuOpen
  {
    header.ToggleMenu();
    assert header.mobileMenuOpen;
    header.ToggleMenu();
    assert !header.mobileMenuOpen;
    header.ToggleMenu();
    var href := header.ClickMobileLink(0);
    assert href == "/";
  }
}
