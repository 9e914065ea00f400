/** The mobile navigation menu of js/script.js: the "active" class on the
    menu panel (open or closed), the button's icon and its `aria-expanded`
    attribute. */
module MobileMenu {

  /** The button's glyph: hamburger bars when closed, a cross when open. */
  datatype Icon = Bars | Times

  datatype MenuView = MenuView(open: bool, icon: Icon, ariaExpanded: bool)

  function IconFor(open: bool): (r: Icon)
    ensures r == Times <==> open
  {
    if open then Times else Bars
  }

  /** The icon and the ARIA attribute agree with the panel's state. */
  predicate Mirrored(v: MenuView)
  {
    v.icon == IconFor(v.open) && v.ariaExpanded == v.open
  }

  /** `toggleMenu`: flip the class, then copy the new state into the icon and
      the attribute, whatever they held before. */
  function Toggled(v: MenuView): (r: MenuView)
    ensures r.open != v.open
    ensures Mirrored(r)
  {
    var open := !v.open;
    MenuView(open, IconFor(open), open)
  }

  /** A click on a navigation link toggles only an open menu. */
  function AfterLinkClick(v: MenuView): (r: MenuView)
    ensures !r.open
    ensures !v.open ==> r == v
    ensures v.open ==> Mirrored(r)
  {
    if v.open then Toggled(v) else v
  }

  /** Toggling twice restores a menu whose icon and attribute were in step. */
  lemma ToggleTwice(v: MenuView)
    ensures Toggled(Toggled(v)).open == v.open
    ensures Mirrored(v) <==> Toggled(Toggled(v)) == v
  {
  }

  /** After any first toggle the state is mirrored, and every later toggle
      or link click keeps it mirrored. */
  lemma MirroredPreserved(v: MenuView)
    requires Mirrored(v)
    ensures Mirrored(Toggled(v)) && Mirrored(AfterLinkClick(v))
  {
  }

  class Menu {
    var open: bool
    var icon: Icon
    var ariaExpanded: bool

    function View(): MenuView
      reads this
    {
      MenuView(open, icon, ariaExpanded)
    }

    /** The state the markup starts with. */
    constructor (initial: MenuView)
      ensures View() == initial
    {
      open, icon, ariaExpanded := initial.open, initial.icon, initial.ariaExpanded;
    }

    /** A click on the menu button. */
    method Toggle()
      modifies this
      ensures View() == Toggled(old(View()))
    {
      open := !open;
      icon := IconFor(open);
      ariaExpanded := open;
    }

    /** A click on any link of `.nav-menu`. */
    method OnLinkClick()
      modifies this
      ensures View() == AfterLinkClick(old(View()))
    {
      if open {
        Toggle();
      }
    }
  }
}
