/** The site's top navigation: the fixed list of sections, the rule that picks the
    highlighted section from the current path, the target of the avatar link, and the
    open/closed flag of the mobile menu. */
module CosmicNav {
  import opened Base

  /** One section of the navigation bar. The icon component is not modelled. */
  datatype NavItem = NavItem(id: string, caption: string, href: string, color: string)

  /** The five sections, in the order the bar shows them. */
  const NavItems: seq<NavItem> := [
    NavItem("orbit-match", "OrbitMatch", "/orbit-match", "from-orbit-2 to-orbit-3"),
    NavItem("hackathons", "Hackathons", "/hackathons", "from-orbit-3 to-orbit-4"),
    NavItem("events", "Events", "/events", "from-orbit-4 to-orbit-1"),
    NavItem("communities", "Communities", "/communities", "from-orbit-1 to-orbit-3"),
    NavItem("hyperlocal", "Hyperlocal", "/hyperlocal", "from-orbit-2 to-orbit-4")
  ]

  /** An item is highlighted when the path starts with its `href`. */
  predicate IsActive(item: NavItem, pathname: string) {
    StartsWith(pathname, item.href)
  }

  /** The position of the first item of `items` that is active for `pathname`,
      as `Array.prototype.find` scans it. */
  function FirstActive(items: seq<NavItem>, pathname: string): (r: Option<nat>)
    ensures r.Some? ==> r.value < |items| && IsActive(items[r.value], pathname)
    ensures r.Some? ==> forall j :: 0 <= j < r.value ==> !IsActive(items[j], pathname)
    ensures r.None? ==> forall j :: 0 <= j < |items| ==> !IsActive(items[j], pathname)
  {
    if items == [] then None
    else if IsActive(items[0], pathname) then Some(0)
    else match FirstActive(items[1..], pathname)
      case None => None
      case Some(i) => Some(i + 1)
  }

  /** `activeItem`: the first section whose `href` prefixes the path, if any. */
  function ActiveItem(pathname: string): (r: Option<NavItem>)
    ensures r.Some? ==> r.value in NavItems && IsActive(r.value, pathname)
    ensures r.None? <==> forall j :: 0 <= j < |NavItems| ==> !IsActive(NavItems[j], pathname)
  {
    match FirstActive(NavItems, pathname)
    case None => None
    case Some(i) => Some(NavItems[i])
  }

  /** The five `href`s are distinct and none is a prefix of another. */
  lemma NavHrefsPrefixFree()
    ensures forall i, j :: 0 <= i < |NavItems| && 0 <= j < |NavItems| && i != j ==>
      !StartsWith(NavItems[j].href, NavItems[i].href)
  {
    forall i, j | 0 <= i < |NavItems| && 0 <= j < |NavItems| && i != j
      ensures !StartsWith(NavItems[j].href, NavItems[i].href)
    {
      var hi, hj := NavItems[i].href, NavItems[j].href;
      if hi[1] != hj[1] {
        DifferentAt(hj, hi, 1);
      } else {
        DifferentAt(hj, hi, 2);
      }
    }
  }

  /** A string that differs from `prefix` at a position both have does not start
      with it. */
  lemma DifferentAt(s: string, prefix: string, k: nat)
    requires k < |s| && k < |prefix| && s[k] != prefix[k]
    ensures !StartsWith(s, prefix)
  {
  }

  /** Since the `href`s are prefix-free, at most one section is highlighted for any
      path, and when one is, it is `activeItem`. */
  lemma AtMostOneActive(pathname: string)
    ensures forall i, j ::
      (0 <= i < |NavItems| && 0 <= j < |NavItems| &&
       IsActive(NavItems[i], pathname) && IsActive(NavItems[j], pathname)) ==> i == j
    ensures forall i :: 0 <= i < |NavItems| && IsActive(NavItems[i], pathname) ==>
      ActiveItem(pathname) == Some(NavItems[i])
  {
    NavHrefsPrefixFree();
    forall i, j | 0 <= i < |NavItems| && 0 <= j < |NavItems| &&
      IsActive(NavItems[i], pathname) && IsActive(NavItems[j], pathname)
      ensures i == j
    {
      if |NavItems[i].href| <= |NavItems[j].href| {
        PrefixesOfSameString(pathname, NavItems[i].href, NavItems[j].href);
      } else {
        PrefixesOfSameString(pathname, NavItems[j].href, NavItems[i].href);
      }
    }
  }

  /** Matching is by prefix: any path under `/hyperlocal`, including `/hyperlocalx`,
      highlights Hyperlocal; likewise `/hackathons2025` highlights Hackathons. */
  lemma ActiveByPrefix(rest: string)
    ensures ActiveItem("/hyperlocal" + rest) == Some(NavItems[4])
    ensures ActiveItem("/hackathons" + rest) == Some(NavItems[1])
  {
    var p := "/hyperlocal" + rest;
    assert p[..|NavItems[4].href|] == NavItems[4].href;
    AtMostOneActive(p);
    var q := "/hackathons" + rest;
    assert q[..|NavItems[1].href|] == NavItems[1].href;
    AtMostOneActive(q);
  }

  /** The landing page, the empty path, the identity-creation page and a path shorter
      than every `href` highlight nothing. */
  lemma NoActiveItem()
    ensures ActiveItem("/") == None
    ensures ActiveItem("") == None
    ensures ActiveItem("/create-id") == None
    ensures ActiveItem("/hyper") == None
  {
    DifferentAt("/create-id", NavItems[2].href, 1);
  }

  /** The user record from the application store; only `devId` is read. */
  datatype User = User(devId: Option<string>)

  /** `user?.devId` is truthy: there is a user and its `devId` is a non-empty string. */
  predicate HasDevId(user: Option<User>) {
    user.Some? && user.value.devId.Some? && user.value.devId.value != ""
  }

  const ProfilePrefix: string := "/profile/"

  const CreateIdHref: string := "/create-id"

  /** `getProfileHref()`: the profile page of the user's developer identity, or the
      page that creates one. */
  function ProfileHref(user: Option<User>): (r: string)
    ensures HasDevId(user) ==> |r| > |ProfilePrefix|
  {
    if HasDevId(user) then ProfilePrefix + user.value.devId.value else CreateIdHref
  }

  /** The identity a profile link points to: what follows `/profile/`, if anything. */
  function ProfileTarget(href: string): (r: Option<string>)
    ensures r.Some? ==> ProfilePrefix + r.value == href && r.value != ""
  {
    if StartsWith(href, ProfilePrefix) && |href| > |ProfilePrefix|
    then Some(href[|ProfilePrefix|..])
    else None
  }

  /** The avatar link names the user's identity exactly when there is one, and
      otherwise leads to `/create-id`. */
  lemma ProfileHrefTarget(user: Option<User>)
    ensures ProfileTarget(ProfileHref(user)) == if HasDevId(user) then Some(user.value.devId.value) else None
    ensures StartsWith(ProfileHref(user), ProfilePrefix) <==> HasDevId(user)
    ensures !HasDevId(user) <==> ProfileHref(user) == CreateIdHref
  {
    var r := ProfileHref(user);
    if HasDevId(user) {
      assert r[..|ProfilePrefix|] == ProfilePrefix;
      assert r[|ProfilePrefix|..] == user.value.devId.value;
      assert r[1] == 'p' != CreateIdHref[1];
    } else {
      DifferentAt(r, ProfilePrefix, 1);
    }
  }

  /** Users with different identities get different links. */
  lemma ProfileHrefInjective(u: Option<User>, v: Option<User>)
    requires HasDevId(u) && HasDevId(v) && ProfileHref(u) == ProfileHref(v)
    ensures u.value.devId == v.value.devId
  {
    ProfileHrefTarget(u);
    ProfileHrefTarget(v);
  }

  /** The effect of the menu button on the open flag. */
  function Toggled(isOpen: bool): (r: bool) {
    !isOpen
  }

  /** The effect of a click on a mobile menu link: closed, whatever the flag was. */
  function Closed(isOpen: bool): (r: bool) {
    false
  }

  /** Toggling twice restores the flag, closing is idempotent, and after closing the
      button opens the menu. */
  lemma MenuLaws(isOpen: bool)
    ensures Toggled(Toggled(isOpen)) == isOpen && Toggled(isOpen) != isOpen
    ensures Closed(Closed(isOpen)) == Closed(isOpen) && !Closed(isOpen)
    ensures Toggled(Closed(isOpen))
  {
  }

  /** The mobile menu's open flag, changed in place by its button and its links. */
  class MobileMenu {
    var isOpen: bool

    constructor ()
      ensures !isOpen
    {
      isOpen := false;
    }

    /** The menu button. */
    method Toggle()
      modifies this
      ensures isOpen == Toggled(old(isOpen))
    {
      isOpen := !isOpen;
    }

    /** A click on one of the menu's links. */
    method Close()
      modifies this
      ensures isOpen == Closed(old(isOpen))
    {
      isOpen := false;
    }
  }
}
