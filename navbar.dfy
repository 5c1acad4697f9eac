/**
 * The responsive navbar: every toggler button flips the `active` class of
 * the navbar and of the overlay and the `nav-active` class of the body.
 */
module Navbar {
  import opened Dom

  class NavbarController {
    const navbar: ClassList
    const overlay: ClassList
    const body: ClassList

    /** The three elements are distinct, so each toggle acts on its own class list. */
    ghost predicate Valid() {
      navbar != overlay && navbar != body && overlay != body
    }

    /** The navbar, the overlay and the body agree on whether the navigation is open. */
    ghost predicate Synced()
      reads navbar, overlay, body
    {
      && ("active" in navbar.tokens <==> "active" in overlay.tokens)
      && ("active" in navbar.tokens <==> "nav-active" in body.tokens)
    }

    constructor (navbar: ClassList, overlay: ClassList, body: ClassList)
      requires navbar != overlay && navbar != body && overlay != body
      ensures Valid()
      ensures this.navbar == navbar && this.overlay == overlay && this.body == body
    {
      this.navbar := navbar;
      this.overlay := overlay;
      this.body := body;
    }

    /** `toggleNavbar()` */
    method ToggleNavbar()
      requires Valid()
      modifies navbar, overlay, body
      ensures navbar.tokens == Toggled(old(navbar.tokens), "active")
      ensures overlay.tokens == Toggled(old(overlay.tokens), "active")
      ensures body.tokens == Toggled(old(body.tokens), "nav-active")
      ensures ("active" in navbar.tokens) == !old("active" in navbar.tokens)
      ensures old(Synced()) ==> Synced()
    {
      navbar.Toggle("active");
      overlay.Toggle("active");
      body.Toggle("nav-active");
    }

    /** Two clicks on a toggler restore all three class lists. */
    method ToggleTwice()
      requires Valid()
      modifies navbar, overlay, body
      ensures navbar.tokens == old(navbar.tokens)
      ensures overlay.tokens == old(overlay.tokens)
      ensures body.tokens == old(body.tokens)
    {
      ToggleNavbar();
      ToggleNavbar();
      ToggledTwice(old(navbar.tokens), "active");
      ToggledTwice(old(overlay.tokens), "active");
      ToggledTwice(old(body.tokens), "nav-active");
    }
  }
}
