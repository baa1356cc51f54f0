/** The page frame around every route: the navigation bar on top and a content
    wrapper that leaves room for it, except on the landing page and on the page that
    creates a developer identity. */
module LayoutWrapper {
  import opened Base
  import opened CosmicNav

  /** `hideNav`: the two routes reached before there is anything to navigate. */
  predicate HideNav(pathname: string) {
    pathname == "/" || pathname == CreateIdHref
  }

  /** What the wrapper renders: whether the navigation bar is there, the class of the
      content wrapper, and the page content, which stands for any React children. */
  datatype Frame<C> = Frame(showNav: bool, wrapperClass: string, children: C)

  /** `LayoutWrapper({ children })` on the route `pathname`. */
  function Render<C>(pathname: string, children: C): (f: Frame<C>)
    ensures f.children == children
  {
    var hidden := HideNav(pathname);
    Frame(!hidden, if hidden then "" else "pt-20", children)
  }

  /** The bar is hidden on exactly two routes; the wrapper's top padding is there
      exactly when the fixed bar is, and is otherwise the empty class; the content is
      rendered unchanged either way. */
  lemma RenderShape<C>(pathname: string, children: C)
    ensures !Render(pathname, children).showNav <==> pathname in ["/", "/create-id"]
    ensures Render(pathname, children).wrapperClass == "pt-20" <==> Render(pathname, children).showNav
    ensures Render(pathname, children).wrapperClass == "" <==> !Render(pathname, children).showNav
    ensures Render(pathname, children).children == children
  {
  }

  /** The test is an exact comparison: every route that extends `/create-id`, such as
      `/create-id/step` or `/create-id/` with a trailing slash, every profile page and
      every other route below `/` show the bar. */
  lemma SubroutesShowNav<C>(rest: string, devId: string, children: C)
    requires rest != "" && rest != "create-id"
    ensures Render("/create-id" + rest, children).showNav
    ensures Render("/" + rest, children).showNav
    ensures Render("/profile/" + devId, children).showNav
  {
    assert |"/create-id" + rest| > |CreateIdHref|;
    assert |"/" + rest| > 1;
    assert ("/" + rest)[1..] == rest;
    assert ("/profile/" + devId)[1] == 'p';
  }

  /** Every route that highlights a section of the bar also shows the bar. */
  lemma ActiveSectionShowsNav<C>(pathname: string, children: C)
    requires ActiveItem(pathname).Some?
    ensures Render(pathname, children).showNav
  {
    NoActiveItem();
  }

  /** Following the avatar link shows the bar on the profile page and hides it on the
      identity-creation page, so the bar disappears exactly for users without an
      identity. */
  lemma ProfileLinkShowsNav<C>(user: Option<User>, children: C)
    ensures Render(ProfileHref(user), children).showNav <==> HasDevId(user)
  {
    ProfileHrefTarget(user);
    if HasDevId(user) {
      assert ProfileHref(user)[1] == 'p';
    }
  }
}
