/**
 * The sidebar: which navigation items it lists, which one is highlighted for the current
 * path, and what its footer shows for the auth state.
 */
module Sidebar {
  import opened Wrappers
  import opened Strings

  datatype NavItem = NavItem(name: string, href: string)

  const Home := NavItem("Home", "/")
  const ProfileItem := NavItem("Profile", "/profile")

  /** `navigation`: the menu everyone sees. */
  const Navigation: seq<NavItem> := [
    Home,
    NavItem("Discover", "/discover"),
    NavItem("Trending", "/trending"),
    NavItem("AI Recommender", "http://127.0.0.1:7860"),
    NavItem("Discussions", "http://localhost:5173"),
    NavItem("Lists", "/lists")
  ]

  /** `authenticatedNavigation`: the same menu with Profile at the end. */
  const AuthenticatedNavigation: seq<NavItem> := Navigation + [ProfileItem]

  /** An item is highlighted when the path is its href, or, except for `/`, starts with it. */
  function IsActive(pathname: string, href: string): (r: bool)
    ensures r ==> IsPrefix(href, pathname)
    ensures pathname == href ==> r
  {
    assert pathname == href ==> pathname[..|href|] == pathname;
    pathname == href || (href != "/" && IsPrefix(href, pathname))
  }

  /** The Home item is highlighted on `/` and nowhere else. */
  lemma HomeActiveOnlyAtRoot(pathname: string)
    ensures IsActive(pathname, Home.href) <==> pathname == "/"
  {
  }

  /** Any other item is highlighted exactly on the paths that start with its href. */
  lemma OtherItemActiveByPrefix(pathname: string, href: string)
    requires href != "/"
    ensures IsActive(pathname, href) <==> IsPrefix(href, pathname)
  {
    if pathname == href {
      assert pathname[..|href|] == pathname;
    }
  }

  /** `navItems`: the signed-in menu when there is a user, the public one otherwise. */
  function NavItems(hasUser: bool): (r: seq<NavItem>)
    ensures hasUser ==> r == Navigation + [ProfileItem]
    ensures !hasUser ==> r == Navigation && ProfileItem !in r
    ensures IsPrefix(Navigation, r)
  {
    if hasUser then AuthenticatedNavigation else Navigation
  }

  /** Profile is listed, as the last item, exactly when there is a user. */
  lemma ProfileListedIffUser(hasUser: bool)
    ensures ProfileItem in NavItems(hasUser) <==> hasUser
    ensures hasUser ==> NavItems(hasUser)[|NavItems(hasUser)| - 1] == ProfileItem
  {
    if hasUser {
      assert NavItems(hasUser)[|Navigation|] == ProfileItem;
    }
  }

  predicate ItemActiveAt(pathname: string, item: NavItem) {
    IsActive(pathname, item.href)
  }

  /** The highlighted items of the menu for `pathname`. */
  function ActiveItems(pathname: string, items: seq<NavItem>): (r: seq<NavItem>)
    ensures forall it :: it in r <==> it in items && IsActive(pathname, it.href)
  {
    Filter(items, it => ItemActiveAt(pathname, it))
  }

  /** On `/profile/...` the signed-in menu highlights Profile alone. */
  lemma ProfilePagesHighlightProfile(pathname: string)
    requires IsPrefix("/profile", pathname)
    ensures ActiveItems(pathname, AuthenticatedNavigation) == [ProfileItem]
  {
    forall it | it in Navigation
      ensures !ItemActiveAt(pathname, it)
    {
      assert pathname[0] == "/profile"[0] && pathname[1] == "/profile"[1];
      assert it.href != "/" ==> |it.href| > 1 && (it.href[0] != '/' || it.href[1] != 'p');
    }
    FilterOfAppend(Navigation, ProfileItem, it => ItemActiveAt(pathname, it));
    FilterDropsAll(Navigation, it => ItemActiveAt(pathname, it));
  }

  /** The Create Post button is rendered only when there is a user. */
  predicate ShowCreatePost(user: Option<string>) {
    user.Some?
  }

  /** `user.username.slice(0, 2).toUpperCase()` */
  function AvatarFallback(username: string): (r: string)
    ensures |r| == (if |username| < 2 then |username| else 2)
    ensures forall i :: 0 <= i < |r| ==> r[i] == ToUpperChar(username[i])
  {
    ToUpper(Take(username, 2))
  }

  /** The footer: a loading row, the signed-in user's card, or the sign-in buttons. */
  datatype Footer = LoadingFooter | UserFooter(fallback: string, username: string) | SignInFooter

  /** `isLoading` wins over both other views; the card appears only for a user. */
  function FooterView(isLoading: bool, user: Option<string>): (f: Footer)
    ensures isLoading ==> f == LoadingFooter
    ensures !isLoading && user.Some? ==> f == UserFooter(AvatarFallback(user.value), user.value)
    ensures !isLoading && user.None? ==> f == SignInFooter
  {
    if isLoading then LoadingFooter
    else if user.Some? then UserFooter(AvatarFallback(user.value), user.value)
    else SignInFooter
  }
}
